# AirPlay bridge: verified model

The repository is a bridge that plays audio streams on AirPlay speakers. This project models its own protocol code in
Dafny 4.11 and proves properties of it: the RAOP sender that turns a PCM stream into RTP packets
(`internal/raop`), the mock receiver that rebuilds a timeline from whatever arrives (`cmd/mockreceiver`), the RTSP
connection between them, and the small stateful cores around the audio path. `dafny verify dfyconfig.toml` checks
everything.

## How it is organised

| module | models |
|---|---|
| `Words`, `Text` | machine words with explicit wrap-around, big-endian layout; the string helpers of Go that the RTSP code uses |
| `NtpClock`, `Protocol` | NTP/RTP fixed-point conversions; RTP, sync, timing and retransmission datagrams |
| `StreamMachine` | one sending session as a machine whose steps are critical sections, datagrams and completed waits; every theorem is about all legal runs |
| `Pacing`, `PaceLimit`, `SyncSkew`, `SkewInTime`, `PauseGate`, `Retransmission` | theorems about those runs |
| `PcmSource`, `Backlog`, `Sender` | the sender's classes, fields updated in place; each critical section is a method, and between two of them other goroutines may pause, resume, re-anchor and request flushes. `Valid()` says that the object is in a state of a legal run, so the theorems about runs are theorems about it |
| `WallClock` | what the sync packets of a run tell about the wall clock |
| `Receiver`, `Timeline`, `Answers`, `EndToEnd` | the receiver's capture, what an arbitrary delivery and what the answers to its requests do to it, and sender and receiver together |
| `Framing`, `RtspMessages`, `Leniency`, `RtspEndpoints` | how RTSP messages are read, how they are printed, what is accepted beside that, and the two ends of the connection |
| `Transport`, `Handshake`, `Sdp` | SETUP and ANNOUNCE |
| `SourceOwnership` | `SwitchableReader`: who closes which PCM source, under every interleaving of lock regions |
| `ProgressClock`, `MacAddress`, `Registry`, `TextStreams`, `Sessions` | the progress clock, the device table, the line splitter and DNS label decoder, the session table |

The environment is arbitrary: readings of the monotone clock are any growing sequence, those of the wall clock
anything, sockets may fail at any write, the network delivers whatever it likes of what was sent, in any order and any
number of times, readers return short, empty and failing reads, map iteration picks any order. A predicate such as
`Valid`, `Reached` or `Entries` that is stated under a quantifier with its own trigger (`Open`, `Recall`, `Look`,
`Inspect`, `Ask`, `Fed`) means the same as its body; the trigger only keeps proofs that pass it on from unfolding it.

## Where the code does less than it seems to

Each of these is a lemma, and the properties above it are stated with the exact condition.

- `int32(uint16(...))` is never negative, so the receiver's branch for late packets is dead
  (`cmd/mockreceiver/main.go:675-687`): a late packet is appended and moves `nextSeq` back
  (`Timeline.LatePacketIsAppended`). Since the answer to a retransmission request is itself late, a gap that is
  answered makes the capture longer than the timeline by gap + 1 packets (`Timeline.AnsweredGapOvershoots`), and every
  packet after it causes another gap, another request and another late answer (`Timeline.AnsweredGapNeverCloses`;
  datagram by datagram, `Answers.AnswersNeverCatchUp` and `EndToEnd.AnsweringSpoils`). The capture is the timeline of
  what was delivered exactly when the delivery is in order with gaps below 512 (`Timeline.TimelineIffInOrder`). That holds for any audio, unless steps backwards and gaps of 512 or more both occur:
  then a silent packet can hide them (`Timeline.SilentPacketPasses`).
- A streaming loop that samples its channels before the first `Pause` ever made and tests them after it waits on a
  channel that no `Resume` closes (`PauseGate.WakesIffPausedBefore`; only stopping the sender ends the wait). One that
  samples them after an earlier pause has ended and tests them after a new `Pause` finds its old resume channel closed
  and goes on sending while paused (`PauseGate.StaleChannelPassesThrough`, `PauseGate.SendsWhilePaused`; all cases in
  `PauseGate.SampleAndTest`).
- The pacing product overflows int64 past 9,223,372,036 frames since the anchor (`Pacing.OffsetExact`), and from there
  to twice that count the target lies before the anchor, so that the loop does not wait at all
  (`Pacing.OverflowDropsPacing`). So the loop keeps pace exactly as long as pacing is re-based every 26,202,762 packets,
  or, by the clock, within 58 hours at 44100 (`PaceLimit.PaceKeptIffFewPackets`, `PaceLimit.PaceKeptIffRebasedInTime`).
- The skew between consecutive sync packets exceeds one frame when they are an odd multiple of 2^26 packets apart and
  the head goes from one the rate carries exactly to one it does not (`SyncSkew.ConsecutiveSyncs`,
  `SkewInTime.HalfCircle`). With pacing re-based in time that takes 148 hours at 44100 (`SkewInTime.SkewHoldsForDays`);
  without, a legal, paced run gets there as soon as pacing has been dropped (`SkewInTime.SkewExceeded`,
  `SkewInTime.SkewHeldIffRebasedInTime`).
- `BuildSDP` is given the receiver's address for the `c=` line, which the receiver takes for the sender's: it sends its
  retransmission requests to itself unless both run on one address (`Sdp.Announce`).
- A reply without a numeric CSeq is taken as the answer to whatever request is waiting
  (`RtspMessages.TakenIffNotAnothers`), so a request gets its own reply only if no such reply comes before it
  (`RtspMessages.OursIffNoneUnnumberedBefore`).
- A write that overflows the line buffer loses a line per newline dropped, and unless what it drops is white space it
  truncates the first line that is left (`TextStreams.OverflowLosesLines`, `TextStreams.OverflowIsHarmlessIff`).
- A stream that ends before its first byte goes straight to the drain, whose packets never carry the marker bit; a
  failed write during the drain ends `Stream` without an error (`Sender.RaopSender.Stream`).
- `Dial` takes the seconds of its starting time from one reading of the clock and the nanoseconds from another, so when
  a second begins between them the timeline starts a second early (`WallClock.DialAcrossSecond`); `reanchor` takes one
  reading.
- A pause between `beginPlaybackClock` and the first Playing is counted as played
  (`ProgressClock.PauseBeforePlayingIsCounted`).
- The comment on `mergeDevice` says that a static entry is not downgraded by an announcement, but its source becomes
  the announcement's and it then expires like any other (`Registry.MergedSource`, `Registry.SweptIffStale`).
- `Manager.Start` drops its lock between check and insert: two overlapping calls for one device both succeed, and the
  first kernel is never closed (`Sessions.OverlappingStarts`, and `Sessions.OverlapCanOrphan` from any state). As long
  as no call for a device passes its check while another is on its way, no insert displaces anything
  (`Sessions.InstallsDisplaceNothing`); `Sessions.OrphanedIffDisplaced` says which single steps lose a kernel.
- A stop deletes the device's session after its kernel has ended, without looking at it again: a session started in
  between is deleted and its kernel is out of reach (`Sessions.StopCanOrphan`).
- The periodic prune closes the kernel of an ended session, but `Start` drops such a session without closing it
  (`Sessions.NeverClosedIffDropped`).

Rows of the table below that begin with *Main:* are the principal results; the other lemmas build up to them or state
what the code's own loops compute, and the last few rows are facts of one line.

## Model

| member | source | states |
|---|---|---|
| `NtpClock.OverflowIsHarmless` | internal/raop/protocol.go:136-138 | *Main:* for every 64-bit NTP value and positive rate the truncated product still gives floor(floor(ntp/2^16)*rate/2^16) mod 2^32 |
| `NtpClock.OverflowHappens` | internal/raop/protocol.go:136-138 | the uint64 product really does overflow at the highest configured rate |
| `NtpClock.SecondIsRateTicks` | internal/raop/protocol.go:136-138 | one NTP second later, also across the era rollover, is exactly `rate` ticks later mod 2^32 |
| `NtpClock.RoundTrip` | internal/raop/protocol.go:136-143 | *Main:* RTP to NTP and back is never ahead, behind by at most ceil((rate-1)/65536), and exact iff rate divides ts*2^16 |
| `NtpClock.ClockAccuracy` | internal/raop/protocol.go:124-138 | NTPToRTP of NTPNow is never ahead of exact time * rate and less than 1 + rate/65536 ticks behind, mod 2^32 |
| `NtpClock.EpochIs1900` | internal/raop/protocol.go:40-41 | the NTP clock counts from 1900, 2,208,988,800 seconds before the Unix epoch, in units of 2^-32 seconds |
| `NtpClock.SyncLoss` | internal/raop/protocol.go:136-143 | a sync packet's NTP field decodes to the head minus at most the round-trip loss, exactly iff the head is exact |
| `NtpClock.SkewBound` | internal/raop/protocol.go:136-143 | two heads decoded from sync packets differ by their true signed distance up to the round-trip loss |
| `Protocol.AudioFormat.PacketSize` | internal/raop/protocol.go:71-88 | a valid format has 704 or 1408 bytes a packet |
| `Protocol.AudioPacket` | internal/raop/protocol.go:152-164 | the buffer filled in place is header then payload, at the RTP positions |
| `Protocol.AudioHeader` | internal/raop/protocol.go:152-164 | type, sequence number, timestamp and payload are read back from the datagram |
| `Protocol.SyncPacket` | internal/raop/protocol.go:171-185 | the buffer filled in place is the sync layout |
| `Protocol.SyncRoundTrip` | cmd/mockreceiver/main.go:733-742 | the receiver's decoding of a sync packet gives back the four words the sender put in |
| `Protocol.TimingReply` | internal/raop/protocol.go:191-204 | the buffer filled in place is the timing-reply layout |
| `Protocol.ProbeAnswered` | internal/raop/protocol.go:206-224 | a receiver's clock probe parses, and the reply returns the probe's own send time as reference and the current time as receive time |
| `Protocol.RequestFields` | cmd/mockreceiver/main.go:699-704 | a retransmission request is read back with its number and count |
| `StreamMachine.Counters` | internal/raop/sender.go:481-493 | *Main:* after any run, with re-anchors anywhere: seqno, framesSent, headTS - startTS and the wire agree with the number of packets built and counted, through every 16-, 32- and 64-bit wrap |
| `StreamMachine.RelativeTime` | internal/raop/sender.go:490-494 | rtptime is 66150 + 352 * (increments since the last re-anchor) mod 2^32 in every state of every run |
| `StreamMachine.EveryPacket` | internal/raop/sender.go:605-619 | *Main:* the k-th packet built in any run carries number s0+k, timestamp 66150 + 352 * (increments since the last re-anchor) mod 2^32, its own marker and payload |
| `StreamMachine.WireContents` | internal/raop/sender.go:605-619 | the wire holds exactly the payloads built, in order, under consecutive numbers |
| `StreamMachine.BacklogIsWindow` | internal/raop/sender.go:365-377 | *Main:* in every state of every run the backlog map's keys are exactly the queue, which is the last min(1000, n) numbers, each mapped to the packet sent under it |
| `StreamMachine.BacklogIsBounded` | internal/raop/sender.go:371-376 | the backlog has min(1000, packets remembered) entries in every state of every run |
| `StreamMachine.NeverAlreadyKept` | internal/raop/sender.go:368-370 | the branch for a number that is already in the backlog is never taken |
| `StreamMachine.RememberNext` | internal/raop/sender.go:365-377 | one rememberPacket moves the window on by one packet, evicting exactly the oldest when it is full |
| `StreamMachine.DatagramFields` | internal/raop/sender.go:683-690 | the bytes of a packet carry its fields |
| `SyncSkew.ConsecutiveSyncs` | internal/raop/sender.go:692-703 | *Main:* for any two sync packets of any run with no re-anchor between and rate <= 65536, the receiver's delta_now is 352 * (packets between) and its skew is within one frame, iff not (distance 2^31 mod 2^32 and an inexact head after an exact one) |
| `SkewInTime.HalfCircle` | internal/raop/sender.go:616 | a distance of k packets is 2^31 mod 2^32 iff k is an odd multiple of 2^26 |
| `SkewInTime.NearSyncsAgree` | cmd/mockreceiver/main.go:749-753 | so any two sync packets fewer than 2^26 packets apart, with no re-anchor between, are within one frame |
| `SkewInTime.SkewHoldsForDays` | internal/raop/sender.go:621-681 | *Main:* bounded by the clock through the pacing: in every paced run whose elapsed time * rate, plus the allowance per pacing rebase, is below 352 * 2^26 frames, and whose pacing is re-based before the last packet that fits an anchor is due, any two sync packets with no re-anchor between are within one frame |
| `SkewInTime.SkewExceeded` | internal/raop/sender.go:621-681 | a legal, paced run within the same total, re-based no more than once, with two consecutive sync packets 2^26 packets apart and no re-anchor between, whose skew is more than one frame |
| `SkewInTime.SkewHeldIffRebasedInTime` | internal/raop/sender.go:621-681 | *Main:* for a session at 44100: all such runs keep every such pair within one frame, iff the span within which pacing is re-based ends before that packet is due |
| `SyncSkew.SkewAtAnyRate` | cmd/mockreceiver/main.go:749-753 | at any rate the skew is within the round-trip loss, away from the ends of the 32-bit range |
| `SyncSkew.LatencyHeld` | internal/raop/sender.go:698-699 | now - now_without_latency is 66150 mod 2^32 in every sync packet |
| `SyncSkew.HeadMoves` | internal/raop/sender.go:614-619 | between re-anchors the head moves by exactly the frames counted |
| `Pacing.OffsetExact` | internal/raop/sender.go:671-681 | *Main:* the int64 pacing product gives the exact slot time iff at most 9,223,372,036 frames were delivered since the anchor |
| `Pacing.OverflowDropsPacing` | internal/raop/sender.go:679-680 | for every frame count and rate: the target lies before the anchor iff the wrapped product reads as negative by at least `rate`; up to 2^64/10^9 frames that is exactly past the bound |
| `Pacing.NeverAhead` | internal/raop/sender.go:634-681 | *Main:* in every paced run, with stalls, pauses, flushes and drain, that re-bases its pacing at least every 26,202,762 packets: frames sent <= elapsed * rate + one packet and one nanosecond per pacing rebase |
| `PaceLimit.RunsAhead` | internal/raop/sender.go:671-681 | from any fresh state, a paced run with one packet more than that on one anchor, within the span of the clock, that is ahead |
| `PaceLimit.PaceKeptIffFewPackets` | internal/raop/sender.go:634-681 | *Main:* counted in packets: all paced runs from a fresh state that re-base at least every n packets keep to the bound, iff n <= 26,202,762 |
| `PaceLimit.PaceKeptIffRebasedInTime` | internal/raop/sender.go:634-681 | *Main:* measured by the clock: all paced runs from a fresh state whose clock never reads more than a span past its anchor keep to the bound, iff the span is shorter than 352 * 26,202,761 frames take (58 hours at 44100) |
| `PauseGate.EveryRunIsSound` | internal/raop/sender.go:500-522 | *Main:* no run of Pause and Resume closes a closed channel; paused iff pauseCh is closed |
| `PauseGate.NextResumeWakes` | internal/raop/sender.go:567-580 | a loop that sampled its channels while paused is released by the next Resume, after any number of further Pauses |
| `PauseGate.SampleAndTest` | internal/raop/sender.go:567-580 | *Main:* for a loop that samples the pair after any run and tests it after any further one: exactly when the pause channel is found closed, and exactly when the resume channel is |
| `PauseGate.WakesIffPausedBefore` | internal/raop/sender.go:567-580 | *Main:* a parked loop can ever be woken by Resume iff some Pause came before it sampled its channels |
| `PauseGate.StaleChannelPassesThrough` | internal/raop/sender.go:567-580 | sampled while open after an earlier Pause and tested after a new one: both channels are closed, so the loop does not park |
| `PauseGate.SendsWhilePaused` | internal/raop/sender.go:567-580 | a run in which it goes on like this while the sender is paused |
| `PcmSource.ReadFull` | internal/raop/sender.go:589 | *Main:* io.ReadFull over arbitrary short, empty and failing reads: the buffer prefix is what was taken from the source, and each error code means what it says |
| `PcmSource.Source.Read` | internal/raop/sender.go:589 | what the loop may rely on from any reader |
| `Backlog.Store.RememberPacket` | internal/raop/sender.go:365-377 | *Main:* the map and queue change as specified, the stored buffers are the packets' own and keep their bytes |
| `Backlog.Store.LookupBacklog` | internal/raop/sender.go:358-363 | a lookup succeeds iff the number is kept and returns the bytes it was remembered with |
| `Retransmission.RepliesAreThePackets` | internal/raop/sender.go:339-354 | *Main:* any request (a, c) is answered, in order, by exactly the remembered packets numbered a..a+min(c,128)-1 mod 2^16, and stripping the prefix gives the originals |
| `Retransmission.AtMost128` | internal/raop/sender.go:340-343 | no answer has more than 128 packets, and one of 128 remembered packets or more has 128 |
| `Retransmission.OnlyRequestsAreAnswered` | internal/raop/sender.go:332-338 | no other kind of datagram, and none too short, is answered |
| `Retransmission.AnswersAreReplies` | internal/raop/sender.go:349-353 | every answer is a retransmit reply on the wire: type 0x56 with a whole packet behind its four-byte prefix |
| `Retransmission.OverlapIsCommon` | internal/raop/sender.go:344-354 | the answer is the part that the stretch asked for and the remembered stretch have in common, empty if none |
| `Retransmission.WholeStretch` | internal/raop/sender.go:344-354 | when all of a stretch is remembered the answer is that stretch |
| `Retransmission.LookupAnyTime` | internal/raop/sender.go:344-348 | lookups interleaved with the running loop never return a packet other than the one sent under that index |
| `Retransmission.AnsweredWhileRunning` | internal/raop/sender.go:339-354 | *Main:* a request whose lookups are spread over any stretch of a run: each finds its packet, as long as the stretch asked for is remembered at the first lookup and not yet evicted at the last |
| `Sender.RaopSender.constructor` | internal/raop/sender.go:161-178 | a dialled sender is in a fresh state of the machine, its timeline at the RTP form of the clock reading it took |
| `Sender.RaopSender.Reanchor` | internal/raop/sender.go:481-488 | one step: both time stamps are the RTP form of the clock reading that is handed back, and the step records that reading |
| `Sender.RaopSender.Pause` | internal/raop/sender.go:500-509 | the pause pair changes as PauseGate says |
| `Sender.RaopSender.Resume` | internal/raop/sender.go:512-522 | the gate opens and the timeline is re-anchored at the reading handed back |
| `Sender.RaopSender.TakeFlushRequest` | internal/raop/sender.go:471-477 | a flush request is taken once |
| `Sender.RaopSender.RequestFlush` | internal/raop/sender.go:465-469 | a flush is asked for |
| `Sender.RaopSender.RebasePacing` | internal/raop/sender.go:662-667 | the pacing anchor is set to now and the frames sent |
| `Sender.RaopSender.SendPacket` | internal/raop/sender.go:605-611 | one datagram goes out under the current number and timestamp, from a buffer of its own |
| `Sender.RaopSender.RememberPacket` | internal/raop/sender.go:612 | the packet just sent is remembered under the same number |
| `Sender.RaopSender.Advance` | internal/raop/sender.go:614-619 | the three wrapping counters move together |
| `Sender.RaopSender.SendSync` | internal/raop/sender.go:692-703 | one sync datagram for the current head is handed to the control socket |
| `Sender.RaopSender.AwaitSlot` | internal/raop/sender.go:634-647 | the loop goes on no earlier than its pacing target, which is the one pacingTarget computes in int64 |
| `Sender.RaopSender.DeliverPacket` | internal/raop/sender.go:605-619 | datagram, backlog entry and counters of one packet, with other goroutines in between; a failed write leaves the wire as it was |
| `Sender.RaopSender.Park` | internal/raop/sender.go:570-578 | a loop that waits goes on only when its own resume channel is closed |
| `Sender.RaopSender.Pad` | internal/raop/sender.go:598-603 | the rest of the buffer is zeroed in place |
| `Sender.RaopSender.HonourPause` | internal/raop/sender.go:567-580 | a loop that finds the sender paused parks, goes on only after a Resume, and then with a fresh pacing anchor and sync interval; one that does not park leaves both alone |
| `Sender.RaopSender.HonourFlush` | internal/raop/sender.go:582-587 | a requested flush is taken, re-anchors the timeline if the receiver accepts it, and re-bases the pacing in any case; without a request only other goroutines act |
| `Sender.RaopSender.SyncIfDue` | internal/raop/sender.go:621-624 | a sync packet goes out iff the deadline has passed, and the next one is then at most a second ahead of the clock; an undue call sends nothing and leaves the deadline alone |
| `Sender.RaopSender.Round` | internal/raop/sender.go:556-648 | one round takes at most a packet of bytes and puts exactly those, zero-padded, on the wire, or says why not; begun while paused it sends nothing before a Resume |
| `Sender.RaopSender.StreamAudio` | internal/raop/sender.go:556-648 | the loop up to the end of the source or an early exit, with the account of everything taken; the deadline of the next sync packet is never more than a second ahead of the clock |
| `Sender.RaopSender.DrainOne` | internal/raop/sender.go:712-738 | one silent, unmarked packet: what it adds and how the drain can end there |
| `Sender.RaopSender.DrainSilence` | internal/raop/sender.go:705-744 | adds silent packets only, none marked first; exactly 188 when it is not cut short |
| `Sender.RaopSender.Stream` | internal/raop/sender.go:536-658 | *Main:* with other goroutines interfering between any two critical sections: the audio packets carry exactly the bytes taken from the reader plus less than one packet of zeros, only the very first is marked, then come exactly 188 silent packets (fewer only when cut short); every outcome says what was consumed |
| `Sender.RaopSender.ServeControl` | internal/raop/sender.go:332-355 | the answer to a control datagram, malformed ones included |
| `WallClock.SyncTellsTheTime` | internal/raop/sender.go:692-703 | *Main:* in every run, for a sync packet k packets after a re-anchor and no other one between: the RTP clock of its NTP half is the one of the wall-clock instant read at the re-anchor (bracketed as in ClockAccuracy) plus 352 * k, minus at most the round-trip loss |
| `WallClock.SyncTellsTheStart` | internal/raop/sender.go:161-178 | the same before any re-anchor, for the instant of dialling |
| `WallClock.SenderTellsTheTime` | internal/raop/sender.go:481-488 | *Main:* so for the datagrams on the control socket of any reachable sender |
| `WallClock.DialAcrossSecond` | internal/raop/sender.go:172 | seconds and nanoseconds are two readings: when a second begins between them, the timeline starts a whole second early |
| `Receiver.SwapTwice` | cmd/mockreceiver/main.go:839-846 | the byte swap is its own inverse |
| `Receiver.SampleIsKept` | cmd/mockreceiver/main.go:839-846 | the value of every 16-bit sample is kept: high byte first on the wire, low byte first in the capture |
| `Receiver.DecodeL16ToLE` | cmd/mockreceiver/main.go:839-846 | the in-place loop makes every two bytes change places, drops an odd one, and so the little-endian reading of each sample is the big-endian reading of the same sample of the payload |
| `Receiver.Session.AppendPCM` | cmd/mockreceiver/main.go:314-319 | samples are appended, four bytes a frame |
| `Receiver.Session.AppendSilence` | cmd/mockreceiver/main.go:321-330 | so much silence is appended, none for a count that is not positive |
| `Receiver.Session.RequestRetransmit` | cmd/mockreceiver/main.go:695-707 | one request datagram goes out |
| `Receiver.Session.Flush` | cmd/mockreceiver/main.go:475-479 | a flush keeps the capture and starts the sequence over |
| `Receiver.Session.HandleGap` | cmd/mockreceiver/main.go:674-688 | a forward gap below 512 is requested and padded; the branch for late packets is dead |
| `Receiver.Session.HandleAudioPacket` | cmd/mockreceiver/main.go:660-692 | *Main:* the capture changes as the specification of one packet says, short datagrams included |
| `Receiver.Session.HandleDatagram` | cmd/mockreceiver/main.go:646-655 | audio, retransmit replies and foreign datagrams |
| `Receiver.AudioIsTaken` | cmd/mockreceiver/main.go:646-650 | an audio datagram as the sender builds it is taken under its number, with its payload |
| `Receiver.ReplyActsAsPacket` | cmd/mockreceiver/main.go:647-655 | a retransmit reply does to the capture what the packet inside it does, and nothing iff that carries no audio |
| `Receiver.ForeignIsIgnored` | cmd/mockreceiver/main.go:646-655 | sync packets, probes and requests leave the capture alone |
| `Timeline.TimelineIffInOrder` | cmd/mockreceiver/main.go:660-692 | *Main:* for any delivery whatsoever: the capture gains exactly the timeline from the first to the last packet delivered, iff the delivery is in order with gaps below 512; for any audio, except that where steps backwards and gaps of 512 or more both occur the packets delivered must differ from each other and from silence |
| `Timeline.LengthTellsOrder` | cmd/mockreceiver/main.go:660-692 | with gaps below 512 already the length of the capture is that of the timeline iff the delivery is in order, and never less |
| `Timeline.SilentPacketPasses` | cmd/mockreceiver/main.go:660-692 | why the mixed case asks for it: packets 0, 600, 2 are taken for the timeline of 0 to 2 iff packet 600 is silent |
| `Timeline.LastBlock` | cmd/mockreceiver/main.go:660-692 | after any delivery, in any order and with any gaps, the capture has grown by whole packets, ends in the samples of the packet that arrived last and expects the one after it |
| `Timeline.InOrderCapture` | cmd/mockreceiver/main.go:660-692 | *Main:* any in-order delivery with gaps below 512, of any audio, past any number of wraps: the capture spans exactly first to last delivered packet, each payload in its own slot, zero elsewhere |
| `Timeline.SlotOffset` | cmd/mockreceiver/main.go:660-692 | the slot of a packet starts at (sequence distance) * 1408 bytes |
| `Timeline.TruthfulIffSmallGaps` | cmd/mockreceiver/main.go:675-682 | an in-order delivery never adds more than the timeline, and adds all of it iff no gap reaches 512 |
| `Timeline.PaddingEnds` | cmd/mockreceiver/main.go:675-682 | where padding ends: a gap of 511 packets is requested and padded, one of 512 is not |
| `Timeline.LatePacketIsAppended` | cmd/mockreceiver/main.go:675-691 | a late or duplicated packet is appended and moves nextSeq backwards |
| `Timeline.AnsweredGapOvershoots` | cmd/mockreceiver/main.go:660-692 | *Main:* when the retransmission that a gap asks for is answered, the capture ends up longer than the timeline by gap + 1 packets, for every gap from 1 to 511 |
| `Timeline.AnsweredGapNeverCloses` | cmd/mockreceiver/main.go:660-707 | *Main:* and this never ends: with every request answered before the next packet, for every gap from 1 to 511 and any number of further packets, each of them causes one more request and adds at least three packets to the capture, exactly three from a gap of one |
| `Timeline.LoopTakes` | cmd/mockreceiver/main.go:646-655 | a delivery of datagrams acts as the delivery of their decoded payloads |
| `Answers.ReplyActs` | cmd/mockreceiver/main.go:758-761 | a retransmit reply with a sent packet inside acts on every capture as a second arrival of that packet |
| `Answers.AnswerActs` | cmd/mockreceiver/main.go:758-761 | the datagrams of an answer act as the arrival of the stretch answered, packet by packet |
| `Answers.AnswerOvershoots` | cmd/mockreceiver/main.go:646-692 | over datagrams: a packet behind a gap, the replies to the request it causes, and the next packet add gap + 1 packets too many |
| `Answers.AnswersNeverCatchUp` | cmd/mockreceiver/main.go:646-707 | over datagrams: with every request answered before the next packet, each further packet causes one more request and at least three packets |
| `EndToEnd.DatagramOf` | internal/raop/sender.go:605-612 | the k-th datagram of any reachable sender is an audio packet with number s0+k and the k-th payload |
| `EndToEnd.OnTheWire` | internal/raop/sender.go:605-612 | every datagram of a valid sender is the encoding of its packet, whose payload is whole for the format, in the middle of a stream too |
| `EndToEnd.SenderKeepsPace` | internal/raop/sender.go:634-681 | a sender that re-bases its pacing at least every 26,202,762 packets never has more packets on the wire than its clock allows |
| `EndToEnd.CaptureOfAnyDelivery` | cmd/mockreceiver/main.go:660-692 | *Main:* sender and receiver together, for any delivery of what any run of a stereo sender has sent so far, drain included: it is captured as its timeline iff it is in order with gaps below 512, under the one exception for the audio above |
| `EndToEnd.LosslessCapture` | cmd/mockreceiver/main.go:660-692 | with nothing lost the capture is the sender's whole payload stream, sample for sample |
| `EndToEnd.SilentTailAudio` | internal/raop/sender.go:705-744 | the drain adds that many packets of zeros to the payload stream |
| `EndToEnd.WholeStream` | internal/raop/sender.go:536-658 | the payload stream of a finished run is the source, less than one packet of zeros, and 188 packets of zeros |
| `EndToEnd.Feed` | cmd/mockreceiver/main.go:646-655 | datagrams handed to a session one by one act as the delivery of all of them |
| `EndToEnd.StreamIntoCapture` | internal/raop/sender.go:536-658 | *Main:* source to capture: when a fresh stereo sender streams a reader to its end, and all of it arrives, each little-endian sample the capture gains is the big-endian sample of the source at the same place, then come less than one packet of silence and 188 packets of silence |
| `EndToEnd.BacklogHoldsWhatWasSent` | internal/raop/sender.go:365-377 | in every reachable state the remembered buffers are byte for byte the last min(1000, n) datagrams sent |
| `EndToEnd.AnyRequestAnswered` | internal/raop/sender.go:332-355 | *Main:* any request to any reachable sender: the stripped answer is the part of the stretch asked for that is still remembered |
| `EndToEnd.GapRequestBringsMissingPackets` | cmd/mockreceiver/main.go:675-707 | *Main:* the request a gap causes brings back exactly those of the first min(gap, 128) missing datagrams that are in the backlog window: all of a gap inside it, none of a gap in the drain, which is never remembered |
| `EndToEnd.AnswerIsTaken` | cmd/mockreceiver/main.go:758-761 | *Main:* the answer of any reachable stereo sender to a gap's request, handed to any receiver datagram by datagram, does what a second delivery of exactly the missing packets it could still send would do |
| `EndToEnd.AnsweringSpoils` | cmd/mockreceiver/main.go:646-707 | *Main:* sender and receiver together: the request that the receiver itself makes, answered from the sender's backlog, leaves the capture gap + 1 packets longer than the timeline |
| `Text.SplitJoined` | cmd/mockreceiver/rtsp.go:138 | splitting what was joined gives the parts back |
| `Text.TrimmedAwayIffSpace` | internal/engine/cliairplay.go:510-512 | text put in front of a line changes its trimmed form iff it is not all white space |
| `Text.AtoiOfItoa` | internal/raop/rtsp.go:178 | a printed number parses to itself |
| `Framing.FieldsAreRead` | internal/raop/rtsp.go:159-173 | printed header lines are read back as the map they amount to, up to the blank line |
| `Framing.PayloadIsRead` | internal/raop/rtsp.go:177-186 | headers and body end where the body does iff the headers announce its length |
| `Framing.OrderIsIrrelevant` | internal/raop/rtsp.go:107-109 | the order in which a case-insensitively distinct header map is iterated does not matter |
| `Framing.SelfDelimiting` | cmd/mockreceiver/rtsp.go:42-104 | a reader that stops at the end of each text reads their concatenation one by one |
| `Framing.FirstOfThose` | internal/raop/rtsp.go:129-197 | a reader that passes over some texts and stops behind the others returns the first of those and leaves exactly what follows it |
| `RtspMessages.RequestRoundTrip` | internal/raop/rtsp.go:86-118 | *Main:* a printed request is read back with method, URI, headers and body, stopping at its last character, iff it has a body or its own headers announce none |
| `RtspMessages.PipelinedRequests` | cmd/mockreceiver/rtsp.go:42-104 | *Main:* any sequence of printed requests on one connection is read back one by one, leaving exactly what follows |
| `RtspMessages.ReplyRoundTrip` | cmd/mockreceiver/rtsp.go:113-132 | the same for replies |
| `RtspMessages.TakenIffNotAnothers` | internal/raop/rtsp.go:188-195 | a complete reply, however its CSeq is spelled, is taken as the answer iff it has no numeric CSeq or ours; otherwise it is passed over to the last character |
| `RtspMessages.FirstTakenIsReturned` | internal/raop/rtsp.go:129-197 | *Main:* on any stream of complete replies the first such reply is returned and reading stops right behind it; without one, reading goes on behind the stream |
| `RtspMessages.OursIffNoneUnnumberedBefore` | internal/raop/rtsp.go:188-195 | *Main:* the reply returned is the one with our CSeq iff no reply without a number comes before it |
| `RtspMessages.AnswerBehindOthers` | internal/raop/rtsp.go:129-197 | behind any number of replies to other requests the answer is found |
| `RtspMessages.ExchangeSucceeds` | cmd/mockreceiver/main.go:436-455 | *Main:* request read, CSeq copied into the reply, reply matched: one whole exchange |
| `RtspMessages.SequenceNumberIsKept` | internal/raop/rtsp.go:97-99 | a request carries its own number, unless the caller sets a CSeq |
| `RtspMessages.IdentityIsKept` | internal/raop/rtsp.go:97-104 | and the sender's identity, as both DACP-ID and Client-Instance, its Active-Remote and the program's name |
| `Leniency.HeaderSpaces` | cmd/mockreceiver/rtsp.go:83-87 | a header line means the same with any white space around key and value, for both ends |
| `Leniency.NoColonNoHeader` | cmd/mockreceiver/rtsp.go:83-86 | a line without a colon is passed over |
| `Leniency.OptionSpaces` | cmd/mockreceiver/rtsp.go:136-146 | a Transport option means the same with any white space around its parts |
| `Leniency.NumberSpellings` | internal/raop/rtsp.go:177-181 | numbers may carry a sign and leading zeros, and are refused exactly where they no longer fit 64 bits |
| `Leniency.NoNumber` | internal/raop/rtsp.go:177-181 | no digits, or anything but a digit behind the first character, is no number |
| `Leniency.NegativeLength` | internal/raop/rtsp.go:177-179 | a length below zero announces no body |
| `Leniency.BlankLinesAreSkipped` | internal/raop/rtsp.go:135-142 | blank lines before a message do not matter |
| `Leniency.ShortRequestLine` | cmd/mockreceiver/rtsp.go:59-62 | a request line of fewer than three words is refused |
| `Leniency.MethodIsRaised` | cmd/mockreceiver/rtsp.go:64-69 | the method of a request is raised to upper case |
| `Leniency.NoStatus` | internal/raop/rtsp.go:144-152 | a status line of one word, or with no number for its code, is refused |
| `Leniency.NoMessage` | internal/raop/rtsp.go:153-156 | a status line may do without a message |
| `Leniency.CutInLine` | internal/raop/rtsp.go:135-164 | a connection that ends within a line yields no message, to either end |
| `Leniency.CutInBody` | cmd/mockreceiver/rtsp.go:90-102 | nor does one that ends before the announced end of the body |
| `RtspEndpoints.LineReader.ReadHeaders` | cmd/mockreceiver/rtsp.go:71-88 | the header loop computes the specification |
| `RtspEndpoints.LineReader.ReadRemainder` | cmd/mockreceiver/rtsp.go:90-102 | headers and body off the stream |
| `RtspEndpoints.ReadOneRequest` | cmd/mockreceiver/rtsp.go:42-104 | requestReader.read computes ReadRequest and leaves the rest on the connection |
| `RtspEndpoints.PrintHeaders` | internal/raop/rtsp.go:107-109 | whatever order the map is iterated in, each entry is printed once |
| `RtspEndpoints.WriteResponse` | cmd/mockreceiver/rtsp.go:113-132 | the builder produces the specified reply text, the default Server header included |
| `RtspEndpoints.RtspConn.PrintRequest` | internal/raop/rtsp.go:97-117 | the builder produces the specified request text, for whatever order the header map is iterated in |
| `RtspEndpoints.RtspConn.Do` | internal/raop/rtsp.go:86-127 | *Main:* numbers, prints and writes the request and returns the matching reply; a failed write uses up the number |
| `RtspEndpoints.RtspConn.ReadAnswer` | internal/raop/rtsp.go:129-197 | readResponse's loop computes the specification |
| `Transport.ParseTransport` | internal/raop/sender.go:785-801 | options and bare parameters of any header |
| `Transport.ParseTransportOptions` | cmd/mockreceiver/rtsp.go:136-146 | the same options as the sender's parser finds, for every header whatsoever |
| `Transport.TransportIsParsed` | internal/raop/sender.go:209-212 | a printed Transport header parses to its own parameters |
| `Transport.TransportIsUDP` | internal/raop/sender.go:209-222 | read by the sender's parser, the header of either end has the bare parameters RTP/AVP/UDP and unicast, whatever its ports |
| `Transport.SenderPortsAreParsed` | internal/raop/sender.go:209-212 | the sender's header gives exactly its two ports |
| `Transport.ReceiverPortsAreParsed` | cmd/mockreceiver/main.go:610-613 | the receiver's header gives exactly its three ports |
| `Transport.SenderPorts.Learn` | internal/raop/sender.go:221-241 | the handshake goes ahead iff there is a positive server port, and then takes over each port that is a number |
| `Transport.PeerPorts.HandleSetup` | cmd/mockreceiver/main.go:567-616 | the receiver takes over each port that is a number and answers with its session and its own ports; without sockets it answers 500 and learns nothing |
| `Transport.SetupExchange` | internal/raop/sender.go:209-241 | *Main:* after SETUP each side holds the peer's actual ports, iff the receiver got its sockets and the audio port is positive; on a 500 nobody learns anything |
| `Handshake.SetupRequestCarriesPorts` | internal/raop/sender.go:209-219 | the same through the request printer and parser, whatever follows on the connection |
| `Handshake.ReceiverTransportIsValue` | cmd/mockreceiver/main.go:610-613 | the printed Transport value survives being a header |
| `Handshake.OwnReplyAnswers` | cmd/mockreceiver/main.go:606-616 | the reply the receiver builds is complete, one-line and carries the request's CSeq and its three ports, whatever order its header map is iterated in |
| `Handshake.SetupReplyCarriesPorts` | internal/raop/sender.go:219-241 | and through the reply printer and parser, behind any number of late replies |
| `Handshake.OwnReplyCarriesPorts` | internal/raop/sender.go:219-241 | *Main:* so the receiver's own reply, printed, sent behind late replies and parsed, gives the sender its three ports |
| `Handshake.OwnReplyCarriesSession` | cmd/mockreceiver/main.go:606-616 | and its session, its name and the request's CSeq |
| `Handshake.PortsAreOptional` | internal/raop/sender.go:231-241 | without control and timing ports in the reply the sender keeps its own |
| `Sdp.LinesAreSplit` | cmd/mockreceiver/main.go:520 | the lines of a CRLF-terminated body |
| `Sdp.Announced.ParseSDP` | cmd/mockreceiver/main.go:519-547 | the loop over the announcement computes the specification, with the connection's address only as a last resort |
| `Sdp.Announced.ParseCodec` | cmd/mockreceiver/main.go:526-539 | the codec line's parts |
| `Sdp.AnnouncementIsRead` | internal/raop/protocol.go:88-115 | *Main:* what BuildSDP prints, parseSDP reads: rate, channels, codec, and the address of the c= line |
| `Sdp.CodecKeepsTheRest` | cmd/mockreceiver/main.go:526-539 | a codec line may leave out the channels or the rate; what it leaves out or gets wrong stays as it was |
| `Sdp.FmtpIsRead` | internal/raop/protocol.go:98-101 | read by position, the format line has frames per packet first, bit depth third, channels seventh and rate last, with the fixed parameters between them |
| `Sdp.AnnouncementLines` | internal/raop/protocol.go:104-115 | line by line: the session and the sender's own address as origin, the receiver's as connection, payload type 96 on the media line and both format lines |
| `Sdp.Announce` | internal/raop/sender.go:193-194 | the receiver ends up with the announced rate and channels, and with its own address as the sender's |
| `SourceOwnership.Conservation` | internal/audio/decoder.go:281-369 | *Main:* under every interleaving a source is in use, waiting, about to be closed or closed, as often as it was handed in |
| `SourceOwnership.ClosedAtMostOnce` | internal/audio/decoder.go:320-369 | nothing is closed twice, nor while it is in use or waiting |
| `SourceOwnership.ClosedExactlyOnce` | internal/audio/decoder.go:349-369 | *Main:* after Close, once the deferred closes have run, every source handed in has been closed exactly once |
| `SourceOwnership.ReadTakesLatest` | internal/audio/decoder.go:296-306 | *Main:* the next Read takes the last source swapped in; after Close it finds the end |
| `SourceOwnership.SwapsLeaveTheReaderAlone` | internal/audio/decoder.go:296-339 | while a Read is under way only another Read or Close can close its source |
| `SourceOwnership.GenerationCountsTaken` | internal/audio/decoder.go:314-318 | generation is the number of swaps that a Read came to before another Swap or Close did |
| `SourceOwnership.SwitchableReader.Read` | internal/audio/decoder.go:296-306 | reads the source current at one moment after its own apply step |
| `SourceOwnership.SwitchableReader.Swap` | internal/audio/decoder.go:327-339 | the replacement waits, or is closed at once when the reader is closed |
| `SourceOwnership.SwitchableReader.Close` | internal/audio/decoder.go:349-369 | what was in use and what was waiting is closed by the time it returns |
| `ProgressClock.ElapsedIsTimePlayed` | internal/engine/types.go:131-141 | *Main:* on every run the clock shows the time in Playing since the last reset plus the head starts given by beginPlaybackClock |
| `ProgressClock.WithoutBeginExact` | internal/engine/types.go:131-170 | without beginPlaybackClock it is exactly the time spent in Playing since the last reset |
| `ProgressClock.PauseBeforePlayingIsCounted` | internal/engine/types.go:174-180 | a pause between beginPlaybackClock and the first Playing is counted as played |
| `ProgressClock.PositionIsStartPlusPlayed` | internal/engine/types.go:206-217 | *Main:* on every run the position is that of the last reset, or else of the session's start, plus the whole milliseconds of the time played and the head starts since, cut to 0..duration |
| `ProgressClock.SeekIsShown` | internal/engine/types.go:162-170 | a seek to 30 s shows 31 s one second later, wherever the session started |
| `ProgressClock.PositionGrows` | internal/engine/types.go:206-217 | *Main:* between resets the reported position never decreases |
| `ProgressClock.PositionInTrack` | internal/engine/types.go:210-216 | the position stays within 0..duration |
| `ProgressClock.SessionBase.SetStateLocked` | internal/engine/types.go:131-141 | one state change |
| `ProgressClock.SessionBase.SetError` | internal/engine/types.go:143-151 | an error is recorded and stops the clock; no error changes nothing |
| `ProgressClock.SessionBase.MarkFinished` | internal/engine/types.go:154-159 | the end of the source stops the clock |
| `ProgressClock.SessionBase.BeginPlaybackClock` | internal/engine/types.go:174-180 | the clock is started ahead unless it is running |
| `ProgressClock.SessionBase.ResetPosition` | internal/engine/types.go:162-170 | one reset |
| `ProgressClock.SessionBase.Snapshot` | internal/engine/types.go:183-219 | activity, and the position of a status: where playback started plus the whole milliseconds played since, cut to 0..duration |
| `MacAddress.StripSeparators` | internal/discovery/registry.go:376 | the replacer drops the separators and nothing else |
| `MacAddress.CheckDigits` | internal/discovery/registry.go:380-384 | the first loop tests every character |
| `MacAddress.WriteColons` | internal/discovery/registry.go:386-390 | the second loop and the join write the pairs with colons between |
| `MacAddress.ComputeMAC` | internal/discovery/registry.go:375-391 | the canonical form of an address, or nothing if it is none |
| `MacAddress.NormalizeIsIdempotent` | internal/discovery/registry.go:375-391 | a canonical address is its own canonical form |
| `MacAddress.SameFormIffSameDigits` | internal/discovery/registry.go:375-391 | two addresses have one normal form iff they have the same digits up to case, however they are separated |
| `MacAddress.SeparatorsDoNotMatter` | internal/discovery/registry.go:376 | a colon, hyphen or dot leaves no trace wherever it stands, and nothing else goes |
| `MacAddress.NormalForm` | internal/discovery/registry.go:386-390 | the normal form spelled out: six pairs with colons between |
| `MacAddress.NormalFormIsProper` | internal/discovery/registry.go:375-391 | whatever has a normal form: seventeen characters, a colon in every third place, else upper-case hex digits |
| `Registry.MergedPort` | internal/discovery/registry.go:326-331 | for observations in any order the port is the last AirPlay record's, else the first non-zero one |
| `Registry.MergedProtocol` | internal/discovery/registry.go:312-316 | the protocol is airplay2 iff some observation said so |
| `Registry.MergedFields` | internal/discovery/registry.go:297-325 | name, model, address, features and service ports are the last ones an observation gave |
| `Registry.MergedRecords` | internal/discovery/registry.go:332-340 | a TXT value is the last one under its key that is not blank |
| `Registry.MergedSource` | internal/discovery/registry.go:286-296 | the source is the last observation's: an announcement turns a static entry into an ordinary one |
| `Registry.PasswordIsNeverTakenBack` | internal/discovery/registry.go:317-319 | an entry needs a password iff some observation said so |
| `Registry.MergedIdentity` | internal/discovery/registry.go:285-344 | the id is the first observation's, or its key, the address the normal form of the last one given since, and the busy flag is left as it was |
| `Registry.InstanceNameIsEnough` | internal/discovery/registry.go:272-283 | a record that has the address only in its instance name has the key of one that gives it |
| `Registry.IdIsTheKey` | internal/discovery/registry.go:272-283 | an id that is no instance name is the key of a record without an address |
| `Registry.NameIsTheLastResort` | internal/discovery/registry.go:272-283 | and the name, in small letters, of one with neither |
| `Registry.UpsertIsStamped` | internal/discovery/registry.go:119-147 | an observation changes the entry under its key and no other; without a source it is an mDNS announcement, without a time it is seen now, and the operator's do not refresh an entry |
| `Registry.EntriesAreMerged` | internal/discovery/registry.go:122-147 | *Main:* every entry of every reachable table is the merge of the observations under its key since it was made |
| `Registry.EntryIsFaithful` | internal/discovery/registry.go:122-147 | so its port, protocol and source are what those observations say |
| `Registry.OneEntryPerMAC` | internal/discovery/registry.go:272-283 | *Main:* no reachable table has two entries with one normalised hardware address |
| `Registry.SweptIffStale` | internal/discovery/registry.go:250-270 | *Main:* a sweep removes an entry iff its last observation is an announcement older than the lifetime |
| `Registry.MergeDevice` | internal/discovery/registry.go:285-344 | the field-by-field merge computes the specification |
| `Registry.MergeRecords` | internal/discovery/registry.go:332-340 | the loop over TXT records computes the specification |
| `Registry.DeviceTable.Upsert` | internal/discovery/registry.go:122-147 | stores or merges under the key |
| `Registry.DeviceTable.Sweep` | internal/discovery/registry.go:250-270 | removes exactly the expired entries and returns each of them once |
| `TextStreams.LinesOfParts` | internal/engine/cliairplay.go:505-515 | cutting a text anywhere: the remainder of the first part joins the second |
| `TextStreams.ChunksDoNotMatter` | internal/engine/cliairplay.go:486-502 | *Main:* however the input is cut into writes, the reported lines are those of the whole, as long as no write overflows |
| `TextStreams.OverflowLosesLines` | internal/engine/cliairplay.go:489-491 | an overflowing write reports one line too few per newline dropped; none iff the dropped part has no newline |
| `TextStreams.OverflowIsHarmlessIff` | internal/engine/cliairplay.go:489-491 | *Main:* an overflowing write reports the same lines and keeps the same remainder iff the kept part has a newline and the dropped part is white space without one |
| `TextStreams.ExtractLines` | internal/engine/cliairplay.go:505-515 | the loop computes lines and remainder |
| `TextStreams.TailBuffer.Write` | internal/engine/cliairplay.go:486-502 | one write, overflow included |
| `TextStreams.TailBuffer.ReportedIsWhole` | internal/engine/cliairplay.go:486-502 | nothing is lost, cut or reported twice while every write fits |
| `TextStreams.UnescapeDNSLabel` | internal/discovery/mdns.go:304-331 | the loop computes the decoding, with the early exit for plain labels |
| `TextStreams.EveryEscapingIsUndone` | internal/discovery/mdns.go:304-331 | *Main:* every legal mix of plain, quoted and three-digit decimal characters decodes to its label |
| `TextStreams.OddEscapes` | internal/discovery/mdns.go:304-331 | a backslash at the end is dropped, and a three-digit code above 255 loses its high bits |
| `Sessions.OrphanedIffDisplaced` | internal/engine/manager.go:105-178 | *Main:* a step leaves a running kernel out of reach iff it installs over, or forgets, a running session that Shutdown has not taken |
| `Sessions.NoOrphans` | internal/engine/manager.go:105-178 | runs without such a step have no kernel out of reach |
| `Sessions.ShutdownStopsAll` | internal/engine/manager.go:340-355 | after a shutdown whose closes have run only Start calls still under way have a kernel running |
| `Sessions.ShutdownCloses` | internal/engine/manager.go:340-355 | *Main:* in every legal run in which a shutdown is followed by whatever happens until its closes have run: every kernel that was in the table has been closed, runs no more and is held nowhere, unless its number is given out again |
| `Sessions.ShutdownFreesEverything` | internal/engine/manager.go:340-347 | right after a shutdown the table is empty, so a Start for any device passes its check, and what was in the table is about to be closed |
| `Sessions.ClosesRunOut` | internal/engine/manager.go:349-354 | every run can be continued by closes alone until none is left |
| `Sessions.PruneFreesEnded` | internal/engine/manager.go:307-318 | *Main:* a prune keeps a device whose kernel runs; it frees a device whose kernel has ended, closes that kernel, and the next Start of the device passes |
| `Sessions.InstallsDisplaceNothing` | internal/engine/manager.go:105-178 | *Main:* in every run in which no Start passes its check while another one for the same device is between its two regions, no insert ever displaces a running session |
| `Sessions.OverlapCanOrphan` | internal/engine/manager.go:105-178 | *Main:* from any state of any run in which two Starts of one device have passed their checks, some continuation leaves the first kernel out of reach for good |
| `Sessions.StopCanOrphan` | internal/engine/manager.go:181-193 | from any state of any run in which a device has no running session, a Start that completes before an earlier stop deletes the device leaves its kernel out of reach |
| `Sessions.KeepApartIsOrderly` | internal/engine/manager.go:105-304 | when, besides, every stop's deletion follows the end of that device's kernel with no Start of the device passed in between, no step displaces a running session |
| `Sessions.CallsKeptApartLoseNothing` | internal/engine/manager.go:105-304 | *Main:* so with calls for one device kept apart no kernel is ever out of reach |
| `Sessions.OverlappingStarts` | internal/engine/manager.go:111-166 | two overlapping Start calls for one device both succeed and lose the first kernel |
| `Sessions.AlwaysDisjoint` | internal/engine/manager.go:105-355 | no kernel is in the table twice, or both in the table and still starting |
| `Sessions.ClosedOrDropped` | internal/engine/manager.go:105-355 | one step: a kernel that is starting, in the table or about to be closed stays so, or is closed, unless its session is dropped: ended and found by Start, overwritten by an insert, or deleted by a stop |
| `Sessions.NeverClosedIffDropped` | internal/engine/manager.go:105-355 | *Main:* in every run the manager never calls Close on a kernel, then and later, iff some step dropped its session; otherwise the kernel is held until it is closed |
| `Sessions.SessionTable.constructor` | internal/engine/manager.go:60-75 | a new manager is at the start of a run |
| `Sessions.SessionTable.CheckLocked` | internal/engine/manager.go:111-121 | the first region of Start: the call passes iff the device has no running session, and an ended one is dropped |
| `Sessions.SessionTable.InstallLocked` | internal/engine/manager.go:164-166 | the second region of Start |
| `Sessions.SessionTable.Forget` | internal/engine/manager.go:292-304 | the end of a stop: the device is deleted, whatever session it has by then |
| `Sessions.SessionTable.Stopped` | internal/engine/manager.go:180-193 | a kernel ends, stopped or by itself |
| `Sessions.SessionTable.ShutdownLocked` | internal/engine/manager.go:340-347 | takes every session out of the table, which is then empty, and leaves their kernels to be closed |
| `Sessions.SessionTable.CloseTaken` | internal/engine/manager.go:349-354 | closes one kernel that a shutdown took: it runs no more |
| `Sessions.SessionTable.Shutdown` | internal/engine/manager.go:340-355 | the loop closes every kernel that was in the table, and no other stops |
| `Sessions.SessionTable.StartKernel` | internal/engine/manager.go:155-162 | the kernel starts, or is closed at once |
| `Sessions.SessionTable.DeleteEnded` | internal/engine/manager.go:307-318 | the loop that deletes while it iterates keeps exactly the sessions whose kernel still runs and closes the others' kernels |
| `Sessions.SessionTable.PruneLocked` | internal/engine/manager.go:307-318 | one prune: exactly the devices of running kernels stay, and the kernels of the others are closed |
| `NtpClock.PartsRoundTrip` | internal/raop/protocol.go:131-133 | splitting an NTP value and joining the halves is the identity |
| `Protocol.ReplyStrips` | internal/raop/sender.go:349-353 | stripping the four-byte prefix of a retransmit reply gives the original packet |
| `StreamMachine.QueueDistinct` | internal/raop/sender.go:365-377 | no number is queued twice |
| `SyncSkew.LatencyReading` | cmd/mockreceiver/main.go:752-753 | the latency the receiver prints is off by 2^32 exactly when `now` has just wrapped |
| `Sender.DrainCoversLatency` | internal/raop/sender.go:708-728 | 188 packets are the fewest that cover the 66150-frame latency window |
| `Registry.OrderOfServicesIsIrrelevant` | internal/discovery/registry.go:285-344 | port and protocol do not depend on which service type was seen first |

## Left out

- Sender.RaopSender.ServeControl: answers a whole request from one state of the backlog, while the code takes the lock for each lookup; Retransmission.AnsweredWhileRunning and Retransmission.LookupAnyTime cover lookups between which the loop moves on.
- Sender.RaopSender.SendSync: says what is handed to the control socket; whether the write succeeds is ignored by the code too, and its test for a missing control address is not modelled because SETUP sets the address before any stream starts.
- Receiver.Session.RequestRetransmit: its test for a missing control socket is not modelled because SETUP sets socket and address before the receiver reads audio; whether the write succeeds is ignored by the code too.
- Timeline.TimelineIffInOrder: needs stereo packets, because the receiver pads four bytes a frame whatever the format.
- EndToEnd.GapRequestBringsMissingPackets: needs the packet expected to be recent enough for its 16-bit number to mean no other one; an older one has left the window, and its number is that of a newer packet.
- EndToEnd.AnswerIsTaken: needs the same of the packet expected, and stereo packets.
- EndToEnd.AnsweringSpoils: needs the part of the gap that is answered to be in the backlog still; what is not comes back as in EndToEnd.AnswerIsTaken.
- SkewInTime.SkewHoldsForDays: needs a rate of at most 65536, no re-anchor between the two packets (a re-anchor sets the relative timestamp back, so that the two are not on one timeline), and pacing re-based within the span that SkewInTime.SkewHeldIffRebasedInTime shows to be exact for 44100.
- PaceLimit.PaceKeptIffFewPackets: needs a rate below one packet per nanosecond, as the bound's nanosecond per rebase would cover whole packets beyond that.
- Pacing.NeverAhead: bounds frames from above only; how late a packet can be depends on the scheduler.
- PauseGate.WakesIffPausedBefore: speaks of waking by Resume; a wait also ends when the sender is stopped or its context is cancelled, which Sender.RaopSender.Park models as an arbitrary signal.
- RtspMessages.RequestRoundTrip: keys and values are trimmed, free of CR and LF, keys free of colons and distinct up to ASCII case; white space is ASCII white space, while Go also trims Unicode spaces.
- Transport.PeerPorts.HandleSetup: sockets that were opened before a later one failed are not modelled, nor are the goroutines SETUP starts.
- RtspEndpoints.RtspConn.Do: deadlines and the 16 KiB buffer size are not modelled; the CSeq counter is unbounded.
- Sdp.AnnouncementIsRead: the address must be one line without surrounding white space, as an IP address is.
- ProgressClock.PositionGrows: durations are unbounded integers, so the int64 limits of time.Duration (292 years) are not modelled.
- Registry.OneEntryPerMAC: case mapping is ASCII; hosts' names outside ASCII are not modelled.
- SourceOwnership.GenerationCountsTaken: the counter is unbounded rather than 64 bits wide; sources are assumed not to be handed in twice.
- Sessions.OrphanedIffDisplaced: what a kernel does inside is its own; only whether it is still running is modelled.
- Sessions.ShutdownCloses: a kernel's number is its identity, so it must not be given to another Start call before the closes have run.
- Sessions.NeverClosedIffDropped: speaks of the manager's own calls of Close; that a kernel told to stop closes itself is the kernel's doing.
- Sessions.SessionTable.PruneLocked: closes and deletes ended sessions; the busy flag it clears in the registry is not modelled.
- The sender's setState, its progress callback, the feedback heartbeat, volume and session ids (single-branch plumbing).
- RTSP handlers other than SETUP, ANNOUNCE and FLUSH, and the WAV header of the capture.
- Registry.Get and SetBusy: map order makes their alias lookup ambiguous; UpsertStatic needs name resolution.
- The ring buffer that keeps ffmpeg's diagnostics: the last max bytes of all writes, an easy relative of TailBuffer.
- REST handlers, auth, CORS, JSON, configuration, logging, process start-up, ffmpeg and cliairplay processes, sockets and mDNS browsing.
- PercentToDBFS and DBFSToPercent: a finite domain in floating point.
