/**
 The pause/resume handshake of the streaming loop (internal/raop/sender.go:500-528, 567-580). Channels are numbered
 in the order they are made; closing one twice would panic.
 */
module PauseGate {

  type Chan = nat

  datatype Gate = Gate(paused: bool, pauseCh: Chan, resumeCh: Chan, closed: set<Chan>, made: nat)

  datatype GateEvent = Paused | Resumed

  /** Dial makes the first pair. */
  const OPEN := Gate(false, 0, 1, {}, 2)

  function OnPause(g: Gate): Gate {
    if g.paused then g
    else Gate(true, g.pauseCh, g.made, g.closed + {g.pauseCh}, g.made + 1)
  }

  function OnResume(g: Gate): Gate {
    if g.paused then Gate(false, g.made, g.resumeCh, g.closed + {g.resumeCh}, g.made + 1)
    else g
  }

  function Apply(g: Gate, e: GateEvent): Gate { if e.Paused? then OnPause(g) else OnResume(g) }

  function After(g: Gate, events: seq<GateEvent>): Gate {
    if events == [] then g else Apply(After(g, events[..|events| - 1]), events[|events| - 1])
  }

  /** Which channel the next event closes, if any: closing must find it open. */
  predicate ClosesOpenChannel(g: Gate, e: GateEvent) {
    match e
    case Paused => g.paused || g.pauseCh !in g.closed
    case Resumed => !g.paused || g.resumeCh !in g.closed
  }

  predicate Sound(g: Gate) {
    && g.pauseCh < g.made && g.resumeCh < g.made && 2 <= g.made && g.pauseCh != g.resumeCh
    && (forall c <- g.closed :: c < g.made)
    && (g.paused <==> g.pauseCh in g.closed)
    && (g.paused ==> g.resumeCh !in g.closed && g.resumeCh > 1)
    && (!g.paused ==> g.resumeCh in g.closed || g == OPEN)
    && 1 !in g.closed && (g.pauseCh == 0 || g.pauseCh > 1)
  }

  lemma StepSound(g: Gate, e: GateEvent)
    requires Sound(g)
    ensures Sound(Apply(g, e)) && ClosesOpenChannel(g, e)
    ensures g.closed <= Apply(g, e).closed
  {}

  /** No run closes a closed channel, and the sender is paused exactly when its pause channel is closed. */
  lemma {:induction false} EveryRunIsSound(events: seq<GateEvent>, e: GateEvent)
    ensures var g := After(OPEN, events);
            Sound(g) && ClosesOpenChannel(g, e) && (g.paused <==> g.pauseCh in g.closed)
  {
    if events == [] {
    } else {
      EveryRunIsSound(events[..|events| - 1], events[|events| - 1]);
      StepSound(After(OPEN, events[..|events| - 1]), events[|events| - 1]);
    }
  }

  lemma {:induction false} AfterConcat(g: Gate, a: seq<GateEvent>, b: seq<GateEvent>)
    ensures After(g, a + b) == After(After(g, a), b)
  {
    if b == [] {
      assert a + b == a;
    } else {
      assert (a + b)[..|a + b| - 1] == a + b[..|b| - 1];
      AfterConcat(g, a, b[..|b| - 1]);
    }
  }

  lemma {:induction false} ClosedGrows(g: Gate, events: seq<GateEvent>)
    requires Sound(g)
    ensures Sound(After(g, events)) && g.closed <= After(g, events).closed
  {
    if events == [] {
    } else {
      ClosedGrows(g, events[..|events| - 1]);
      StepSound(After(g, events[..|events| - 1]), events[|events| - 1]);
    }
  }

  /** While no Resume happens a paused gate stays as it is. */
  lemma {:induction false} StillPaused(g: Gate, events: seq<GateEvent>)
    requires g.paused && forall e <- events :: e.Paused?
    ensures After(g, events) == g
  {
    if events == [] {
    } else {
      assert events[|events| - 1] in events;
      StillPaused(g, events[..|events| - 1]);
    }
  }

  lemma {:induction false} StillOpen(g: Gate, events: seq<GateEvent>)
    requires !g.paused && forall e <- events :: e.Resumed?
    ensures After(g, events) == g
  {
    if events == [] {
    } else {
      assert events[|events| - 1] in events;
      StillOpen(g, events[..|events| - 1]);
    }
  }

  /** A pair sampled while paused is released by the next Resume, however many Pauses come first. */
  lemma NextResumeWakes(before: seq<GateEvent>, events: seq<GateEvent>)
    requires After(OPEN, before).paused
    requires events != [] && events[|events| - 1].Resumed? && forall i :: 0 <= i < |events| - 1 ==> events[i].Paused?
    ensures var sampled := After(OPEN, before).resumeCh;
            sampled !in After(OPEN, before).closed && sampled in After(OPEN, before + events).closed
  {
    EveryRunIsSound(before, Paused);
    AfterConcat(OPEN, before, events);
    StillPaused(After(OPEN, before), events[..|events| - 1]);
  }

  /**
   A loop that sampled its pair after `before` and parks because a pause came in later (`during`): the channel it
   waits on is closed in some continuation if and only if some Pause happened before the sample. The loop that
   sampled the very first pair waits for a channel nobody ever closes.
   */
  lemma WakesIffPausedBefore(before: seq<GateEvent>, during: seq<GateEvent>)
    requires After(OPEN, before).pauseCh in After(OPEN, before + during).closed
    ensures var sampled := After(OPEN, before).resumeCh;
            (exists later :: sampled in After(OPEN, before + during + later).closed) <==> Paused in before
  {
    var g := After(OPEN, before);
    forall later
      ensures g.resumeCh in After(OPEN, before + during + later).closed
              <==> if g.paused then Resumed in during + later else Paused in before
    {
      assert before + during + later == before + (during + later);
      SampleAndTest(before, during + later);
    }
    assert Resumed in during + [Resumed];
    assert g.resumeCh in After(OPEN, before + during + [Resumed]).closed <==> g.paused || Paused in before;
    if Paused !in before {
      StillOpen(OPEN, before);
    }
  }

  /**
   What a loop finds that sampled its pair after `before` and tests it after `events` more, exactly: it parks iff the
   sender was paused at the sample or has been since; and its resume channel is closed, so that it goes straight on,
   iff a Resume has come since a sample taken while paused, or, for a sample taken while not paused, iff there was a
   Pause before it.
   */
  lemma SampleAndTest(before: seq<GateEvent>, events: seq<GateEvent>)
    ensures var g, closed := After(OPEN, before), After(OPEN, before + events).closed;
            && (g.pauseCh in closed <==> g.paused || Paused in events)
            && (g.resumeCh in closed <==> if g.paused then Resumed in events else Paused in before)
  {
    var g := After(OPEN, before);
    EveryRunIsSound(before, Paused);
    AfterConcat(OPEN, before, events);
    ClosedGrows(g, events);
    if g.paused {
      PausedTest(g, events);
    } else {
      OpenTest(g, events);
      if Paused in before {
        PausedOnce(before);
      } else {
        StillOpen(OPEN, before);
        EveryRunIsSound(before + events, Paused);
      }
    }
  }

  lemma PausedTest(g: Gate, events: seq<GateEvent>)
    requires Sound(g) && g.paused
    ensures g.resumeCh in After(g, events).closed <==> Resumed in events
  {
    if Resumed in events {
      FirstOf(g, events, Resumed);
    } else {
      OnlyOthers(events, Resumed);
      StillPaused(g, events);
    }
  }

  lemma OpenTest(g: Gate, events: seq<GateEvent>)
    requires Sound(g) && !g.paused
    ensures g.pauseCh in After(g, events).closed <==> Paused in events
  {
    if Paused in events {
      FirstOf(g, events, Paused);
    } else {
      OnlyOthers(events, Paused);
      StillOpen(g, events);
    }
  }

  lemma OnlyOthers(events: seq<GateEvent>, e: GateEvent)
    requires e !in events
    ensures forall f <- events :: f != e
  {}

  /** The first event that changes the gate closes the channel that was waiting for it. */
  lemma {:induction false} FirstOf(g: Gate, events: seq<GateEvent>, e: GateEvent)
    requires Sound(g) && e in events && (g.paused <==> e.Resumed?)
    ensures (if e.Resumed? then g.resumeCh else g.pauseCh) in After(g, events).closed
  {
    var front, last := events[..|events| - 1], events[|events| - 1];
    assert events == front + [last];
    ClosedGrows(g, front);
    StepSound(After(g, front), last);
    if e in front {
      FirstOf(g, front, e);
    } else {
      OnlyOthers(front, e);
      if e.Resumed? {
        StillPaused(g, front);
      } else {
        StillOpen(g, front);
      }
    }
  }

  /**
   The second effect of the race: after an earlier Pause, a loop that samples while not paused holds a resume channel
   that is closed already. When a new Pause comes before the test, it parks on that channel, goes straight on, and
   sends while the sender is paused.
   */
  lemma StaleChannelPassesThrough(before: seq<GateEvent>, during: seq<GateEvent>)
    requires !After(OPEN, before).paused && Paused in before && Paused in during
    ensures var g, closed := After(OPEN, before), After(OPEN, before + during).closed;
            g.pauseCh in closed && g.resumeCh in closed
  {
    SampleAndTest(before, during);
  }

  lemma SendsWhilePaused()
    ensures var before, during := [Paused, Resumed], [Paused];
            && !After(OPEN, before).paused && After(OPEN, before + during).paused
            && After(OPEN, before).resumeCh in After(OPEN, before + during).closed
  {
    var before, during := [Paused, Resumed], [Paused];
    assert before[..1] == [Paused] && [Paused][..0] == [];
    assert After(OPEN, [Paused]) == OnPause(OPEN);
    assert After(OPEN, before) == OnResume(OnPause(OPEN));
    assert (before + during)[..2] == before;
    StaleChannelPassesThrough(before, during);
  }

  lemma {:induction false} PausedOnce(before: seq<GateEvent>)
    requires Paused in before
    ensures After(OPEN, before) != OPEN
  {
    var front, last := before[..|before| - 1], before[|before| - 1];
    assert before == front + [last];
    if last.Resumed? {
      PausedOnce(front);
    }
    EveryRunIsSound(front, last);
  }
}
