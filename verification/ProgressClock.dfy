/**
 The progress clock every playback session shares (internal/engine/types.go:97-219). Time is in nanoseconds on a
 monotone clock; whatever happens to a session is a sequence of timed events.
 */
module ProgressClock {
  import opened Words

  const MILLI := 1_000_000

  datatype State = Buffering | Playing | Paused | Stopped | Error

  datatype Change = Enter(state: State) | Reset(positionMS: int) | Begin

  datatype Event = Event(at: nat, change: Change)

  /** The fields the clock is made of. */
  datatype Clock = Clock(state: State, startMS: int, playingSince: Option<nat>, accumulated: int)

  function Fresh(startMS: int): Clock { Clock(Buffering, startMS, None, 0) }

  function Step(c: Clock, e: Event): Clock {
    match e.change
    case Enter(state) =>
      var leaving := c.state == Playing && state != Playing;
      var banked := if leaving && c.playingSince.Some? then c.accumulated + (e.at - c.playingSince.value) else c.accumulated;
      var since := if leaving then None else c.playingSince;
      Clock(state, c.startMS, if state == Playing && since.None? then Some(e.at) else since, banked)
    case Reset(positionMS) =>
      Clock(c.state, positionMS, if c.state == Playing then Some(e.at) else c.playingSince, 0)
    case Begin =>
      if c.playingSince.None? then c.(playingSince := Some(e.at)) else c
  }

  /** Readings of a monotone clock. */
  predicate Timed(events: seq<Event>) {
    forall i, j :: 0 <= i < j < |events| ==> events[i].at <= events[j].at
  }

  function Last(events: seq<Event>): nat { if events == [] then 0 else events[|events| - 1].at }

  function Run(startMS: int, events: seq<Event>): Clock {
    if events == [] then Fresh(startMS) else Step(Run(startMS, events[..|events| - 1]), events[|events| - 1])
  }

  function Elapsed(c: Clock, now: nat): int {
    if c.state == Playing && c.playingSince.Some? then c.accumulated + (now - c.playingSince.value) else c.accumulated
  }

  /** The reported position; Milliseconds truncates toward zero. */
  function Position(c: Clock, durationMS: int, now: nat): int {
    var position := c.startMS + TruncDiv(Elapsed(c, now), MILLI);
    var capped := if durationMS > 0 && position > durationMS then durationMS else position;
    if capped < 0 then 0 else capped
  }

  // ---- What the clock ought to say ----

  /** The state that was entered last. */
  function StateAfter(events: seq<Event>): State {
    if events == [] then Buffering
    else
      var last := events[|events| - 1];
      if last.change.Enter? then last.change.state else StateAfter(events[..|events| - 1])
  }

  /** The total time spent in Playing since the last reset. */
  function TimePlayed(events: seq<Event>, now: nat): int {
    if events == [] then 0
    else
      var front, last := events[..|events| - 1], events[|events| - 1];
      (if StateAfter(events) == Playing then now - last.at else 0)
      + if last.change.Reset? then 0 else TimePlayed(front, last.at)
  }

  /** When the clock was begun ahead of playing, if it was: the first Begin since Playing was left last. */
  function BegunAt(events: seq<Event>): Option<nat> {
    if events == [] then None
    else
      var front, last := events[..|events| - 1], events[|events| - 1];
      match last.change
      case Begin =>
        if StateAfter(front) == Playing then None
        else if BegunAt(front).Some? then BegunAt(front) else Some(last.at)
      case Enter(state) => if state == Playing || StateAfter(front) == Playing then None else BegunAt(front)
      case Reset(_) => BegunAt(front)
  }

  /** The time between a Begin and the Playing it was ahead of, summed up since the last reset. */
  function HeadStart(events: seq<Event>): int {
    if events == [] then 0
    else
      var front, last := events[..|events| - 1], events[|events| - 1];
      match last.change
      case Reset(_) => 0
      case Begin => HeadStart(front)
      case Enter(state) =>
        HeadStart(front)
        + if state == Playing && StateAfter(front) != Playing && BegunAt(front).Some?
          then last.at - BegunAt(front).value else 0
  }

  /** Where playback started: the position of the last reset, or else of the session. */
  function StartedAt(startMS: int, events: seq<Event>): int {
    if events == [] then startMS
    else
      var last := events[|events| - 1];
      if last.change.Reset? then last.change.positionMS else StartedAt(startMS, events[..|events| - 1])
  }

  /** A position within the track: not before its start, and not behind its end if that is known. */
  function Within(position: int, durationMS: int): (p: int)
    ensures p == position <==> position >= 0 && (durationMS > 0 ==> position <= durationMS)
    ensures p >= 0 && (durationMS > 0 ==> p <= durationMS)
    ensures position < 0 ==> p == 0
    ensures durationMS > 0 && position > durationMS ==> p == durationMS
  {
    if position < 0 then 0 else if durationMS > 0 && position > durationMS then durationMS else position
  }

  // ---- What it says ----

  lemma {:induction false} ClockState(startMS: int, events: seq<Event>)
    ensures var c := Run(startMS, events);
            c.state == StateAfter(events)
            && (c.state == Playing ==> c.playingSince.Some?)
            && (c.state != Playing ==> c.playingSince == BegunAt(events))
    ensures StateAfter(events) == Playing ==> BegunAt(events).None?
  {
    if events == [] {
    } else {
      ClockState(startMS, events[..|events| - 1]);
    }
  }

  lemma ElapsedSteps(c: Clock, e: Event, now: nat)
    requires c.state == Playing ==> c.playingSince.Some?
    ensures var d := Step(c, e);
            Elapsed(d, now)
            == (if d.state == Playing then now - e.at else 0)
               + if e.change.Reset? then 0
                 else Elapsed(c, e.at)
                      + if d.state == Playing && c.state != Playing && c.playingSince.Some?
                        then e.at - c.playingSince.value else 0
  {}

  /** On every run: the clock shows the time played since the last reset, plus the head starts it was given. */
  lemma {:induction false} ElapsedIsTimePlayed(startMS: int, events: seq<Event>, now: nat)
    ensures Elapsed(Run(startMS, events), now) == TimePlayed(events, now) + HeadStart(events)
  {
    if events == [] {
    } else {
      var front, last := events[..|events| - 1], events[|events| - 1];
      ElapsedIsTimePlayed(startMS, front, last.at);
      ClockState(startMS, front);
      ClockState(startMS, events);
      ElapsedSteps(Run(startMS, front), last, now);
    }
  }

  lemma {:induction false} NoHeadStart(events: seq<Event>)
    requires forall i :: 0 <= i < |events| ==> !events[i].change.Begin?
    ensures BegunAt(events).None? && HeadStart(events) == 0
  {
    if events == [] {
    } else {
      NoHeadStart(events[..|events| - 1]);
    }
  }

  /** Without beginPlaybackClock the clock shows exactly the time spent in Playing. */
  lemma WithoutBeginExact(startMS: int, events: seq<Event>, now: nat)
    requires forall i :: 0 <= i < |events| ==> !events[i].change.Begin?
    ensures Elapsed(Run(startMS, events), now) == TimePlayed(events, now)
  {
    NoHeadStart(events);
    ElapsedIsTimePlayed(startMS, events, now);
  }

  /** A clock begun while buffering goes on counting through a pause that comes before the first Playing. */
  lemma PauseBeforePlayingIsCounted()
    ensures var events := [Event(0, Begin), Event(1_000 * MILLI, Enter(Paused)), Event(10_000 * MILLI, Enter(Playing))];
            && TimePlayed(events, 11_000 * MILLI) == 1_000 * MILLI
            && Position(Run(0, events), 0, 11_000 * MILLI) == 11_000
  {
    var begun := Event(0, Begin);
    var paused := Event(1_000 * MILLI, Enter(Paused));
    var playing := Event(10_000 * MILLI, Enter(Playing));
    var events := [begun, paused, playing];
    assert events[..2] == [begun, paused] && [begun, paused][..1] == [begun] && [begun][..0] == [];
    assert StateAfter([begun]) == Buffering && TimePlayed([begun], paused.at) == 0;
    assert StateAfter([begun, paused]) == Paused && TimePlayed([begun, paused], playing.at) == 0;
    assert Run(0, [begun]) == Clock(Buffering, 0, Some(0), 0);
    assert Run(0, [begun, paused]) == Clock(Paused, 0, Some(0), 0);
    assert Run(0, events) == Clock(Playing, 0, Some(0), 0);
  }

  lemma {:induction false} TimedPrefix(events: seq<Event>, now: nat)
    requires Timed(events) && Last(events) <= now
    ensures TimePlayed(events, now) >= 0 && HeadStart(events) >= 0
    ensures BegunAt(events).Some? ==> BegunAt(events).value <= Last(events)
  {
    if events == [] {
    } else {
      TimedPrefix(events[..|events| - 1], events[|events| - 1].at);
    }
  }

  lemma {:induction false} StartIsKept(startMS: int, events: seq<Event>)
    ensures Run(startMS, events).startMS == StartedAt(startMS, events)
  {
    if events == [] {
    } else {
      StartIsKept(startMS, events[..|events| - 1]);
    }
  }

  /**
   On every run the position is where playback started plus the whole milliseconds that have been played since (head
   starts included), kept within the track.
   */
  lemma PositionIsStartPlusPlayed(startMS: int, events: seq<Event>, durationMS: int, now: nat)
    requires Timed(events) && Last(events) <= now
    ensures Position(Run(startMS, events), durationMS, now)
         == Within(StartedAt(startMS, events) + (TimePlayed(events, now) + HeadStart(events)) / 1_000_000, durationMS)
  {
    StartIsKept(startMS, events);
    ElapsedIsTimePlayed(startMS, events, now);
    TimedPrefix(events, now);
  }

  /** A seek to 30 s is shown as such: one second later the position is 31 s, wherever the session started. */
  lemma SeekIsShown(startMS: int, playing: nat, sought: nat)
    requires playing <= sought
    ensures var events := [Event(playing, Enter(Playing)), Event(sought, Reset(30_000))];
            Position(Run(startMS, events), 0, sought + 1_000_000_000) == 31_000
  {
    var events := [Event(playing, Enter(Playing)), Event(sought, Reset(30_000))];
    assert events[..1] == [Event(playing, Enter(Playing))] && events[..1][..0] == [];
    assert Run(startMS, events[..1]) == Clock(Playing, startMS, Some(playing), 0);
  }

  /** The reported position is never before the start of the track nor behind its end. */
  lemma PositionInTrack(startMS: int, events: seq<Event>, durationMS: int, now: nat)
    ensures var p := Position(Run(startMS, events), durationMS, now);
            0 <= p && (durationMS > 0 ==> p <= durationMS)
  {}

  // ---- It never runs backwards ----

  /** Until the next reset no event and no passing of time takes the clock back. */
  lemma {:induction false} ElapsedGrows(startMS: int, events: seq<Event>, more: seq<Event>, t: nat, now: nat)
    requires Timed(events + more) && Last(events) <= t <= now && Last(events + more) <= now
    requires forall i :: 0 <= i < |more| ==> t <= more[i].at && !more[i].change.Reset?
    ensures Elapsed(Run(startMS, events), t) <= Elapsed(Run(startMS, events + more), now)
    ensures Run(startMS, events + more).startMS == Run(startMS, events).startMS
  {
    if more == [] {
      assert events + more == events;
      ClockState(startMS, events);
    } else {
      var front, last := more[..|more| - 1], more[|more| - 1];
      assert (events + more)[..|events + more| - 1] == events + front;
      assert events + more == (events + front) + [last];
      ElapsedGrows(startMS, events, front, t, last.at);
      ClockState(startMS, events + front);
      TimedPrefix(events + front, last.at);
      ElapsedSteps(Run(startMS, events + front), last, now);
    }
  }

  lemma PositionGrows(startMS: int, events: seq<Event>, more: seq<Event>, durationMS: int, t: nat, now: nat)
    requires Timed(events + more) && Last(events) <= t <= now && Last(events + more) <= now
    requires forall i :: 0 <= i < |more| ==> t <= more[i].at && !more[i].change.Reset?
    ensures Position(Run(startMS, events), durationMS, t) <= Position(Run(startMS, events + more), durationMS, now)
  {
    ElapsedGrows(startMS, events, more, t, now);
    TruncDivMonotone(Elapsed(Run(startMS, events), t), Elapsed(Run(startMS, events + more), now));
  }

  lemma TruncDivMonotone(a: int, b: int)
    requires a <= b
    ensures TruncDiv(a, MILLI) <= TruncDiv(b, MILLI)
  {}

  // ---- The session ----

  /** Every method is one region of the session's mutex; now is the clock read inside it. */
  class SessionBase {
    var state: State
    var startMS: int
    var durationMS: int
    var playingSince: Option<nat>
    var accumulated: int
    var finished: bool
    var failure: Option<string>

    ghost const firstMS: int
    ghost var trace: seq<Event>

    ghost predicate Valid()
      reads this
    {
      Timed(trace) && Run(firstMS, trace) == Clock(state, startMS, playingSince, accumulated)
    }

    constructor (startMS: int, durationMS: int)
      ensures Valid() && trace == [] && this.durationMS == durationMS && firstMS == startMS
      ensures !finished && failure == None
    {
      state, this.startMS, this.durationMS, playingSince, accumulated := Buffering, startMS, durationMS, None, 0;
      finished, failure, firstMS, trace := false, None, startMS, [];
    }

    ghost method Note(e: Event)
      requires Timed(trace) && Last(trace) <= e.at
      modifies this`trace
      ensures trace == old(trace) + [e] && Timed(trace)
      ensures Run(firstMS, trace) == Step(Run(firstMS, old(trace)), e)
    {
      assert (trace + [e])[..|trace|] == trace;
      trace := trace + [e];
    }

    method SetStateLocked(next: State, now: nat)
      requires Valid() && Last(trace) <= now
      modifies this`state, this`playingSince, this`accumulated, this`trace
      ensures Valid() && trace == old(trace) + [Event(now, Enter(next))]
    {
      Note(Event(now, Enter(next)));
      if state == Playing && next != Playing {
        if playingSince.Some? {
          accumulated := accumulated + (now - playingSince.value);
        }
        playingSince := None;
      }
      if next == Playing && playingSince.None? {
        playingSince := Some(now);
      }
      state := next;
    }

    method SetError(error: Option<string>, now: nat)
      requires Valid() && Last(trace) <= now
      modifies this
      ensures Valid() && durationMS == old(durationMS) && finished == old(finished)
      ensures if error.None? then trace == old(trace) && failure == old(failure)
              else trace == old(trace) + [Event(now, Enter(Error))] && failure == error
    {
      if error.None? {
        return;
      }
      failure := error;
      SetStateLocked(Error, now);
    }

    method MarkFinished(now: nat)
      requires Valid() && Last(trace) <= now
      modifies this
      ensures Valid() && finished && failure == old(failure) && durationMS == old(durationMS)
      ensures trace == old(trace) + [Event(now, Enter(Stopped))]
    {
      finished := true;
      SetStateLocked(Stopped, now);
    }

    method ResetPosition(positionMS: int, now: nat)
      requires Valid() && Last(trace) <= now
      modifies this`startMS, this`accumulated, this`playingSince, this`trace
      ensures Valid() && trace == old(trace) + [Event(now, Reset(positionMS))]
    {
      Note(Event(now, Reset(positionMS)));
      startMS := positionMS;
      accumulated := 0;
      if state == Playing {
        playingSince := Some(now);
      }
    }

    method BeginPlaybackClock(now: nat)
      requires Valid() && Last(trace) <= now
      modifies this`playingSince, this`trace
      ensures Valid() && trace == old(trace) + [Event(now, Begin)]
    {
      Note(Event(now, Begin));
      if playingSince.None? {
        playingSince := Some(now);
      }
    }

    /** The clock part of a status. */
    method Snapshot(now: nat) returns (active: bool, positionMS: int)
      requires Valid() && Last(trace) <= now
      ensures active <==> StateAfter(trace) in {Buffering, Playing, Paused}
      ensures positionMS == Position(Run(firstMS, trace), durationMS, now)
      ensures positionMS
           == Within(StartedAt(firstMS, trace) + (TimePlayed(trace, now) + HeadStart(trace)) / 1_000_000, durationMS)
      ensures 0 <= positionMS && (durationMS > 0 ==> positionMS <= durationMS)
    {
      ClockState(firstMS, trace);
      PositionIsStartPlusPlayed(firstMS, trace, durationMS, now);
      active := state == Buffering || state == Playing || state == Paused;
      var elapsed := accumulated;
      if state == Playing && playingSince.Some? {
        elapsed := elapsed + (now - playingSince.value);
      }
      positionMS := startMS + TruncDiv(elapsed, MILLI);
      if durationMS > 0 && positionMS > durationMS {
        positionMS := durationMS;
      }
      if positionMS < 0 {
        positionMS := 0;
      }
    }
  }
}
