/**
 Who closes which PCM source (internal/audio/decoder.go:281-369). SwitchableReader's lock regions are the steps of a
 machine; a Close call that its thread makes after unlocking is a later step of its own (Retire), so everything proved
 about all runs holds under every interleaving of Read, Swap and Close.
 */
module SourceOwnership {
  import opened Words

  /** The identity of a reader handed in. */
  type Source = nat

  datatype State = State(current: Option<Source>, pending: Option<Source>, closed: bool, generation: nat,
                         deferred: multiset<Source>, closes: multiset<Source>)

  /** Apply is applyPending's lock region, Swap and Close theirs; Retire is a deferred Close call on a source. */
  datatype Event = Apply | Swap(next: Source) | Close | Retire(source: Source)

  function Held(o: Option<Source>): multiset<Source> { if o.Some? then multiset{o.value} else multiset{} }

  function Start(initial: Option<Source>): State { State(initial, None, false, 0, multiset{}, multiset{}) }

  predicate Enabled(s: State, e: Event) { e.Retire? ==> e.source in s.deferred }

  function Step(s: State, e: Event): State
    requires Enabled(s, e)
  {
    match e
    case Apply =>
      if s.pending.None? then s
      else s.(current := s.pending, pending := None, generation := s.generation + 1,
              deferred := s.deferred + Held(s.current))
    case Swap(next) =>
      if s.closed then s.(deferred := s.deferred + multiset{next})
      else s.(pending := Some(next), closes := s.closes + Held(s.pending))
    case Close =>
      if s.closed then s
      else s.(closed := true, current := None, pending := None,
              deferred := s.deferred + Held(s.pending) + Held(s.current))
    case Retire(source) =>
      s.(deferred := s.deferred - multiset{source}, closes := s.closes + multiset{source})
  }

  predicate Legal(initial: Option<Source>, events: seq<Event>)
    decreases |events|, 0
  {
    events == [] ||
    var front := events[..|events| - 1];
    Legal(initial, front) && Enabled(Run(initial, front), events[|events| - 1])
  }

  function Run(initial: Option<Source>, events: seq<Event>): State
    requires Legal(initial, events)
    decreases |events|, 1
  {
    if events == [] then Start(initial)
    else Step(Run(initial, events[..|events| - 1]), events[|events| - 1])
  }

  /** Every source that was ever handed in. */
  function Given(initial: Option<Source>, events: seq<Event>): multiset<Source> {
    if events == [] then Held(initial)
    else
      var last := events[|events| - 1];
      Given(initial, events[..|events| - 1]) + if last.Swap? then multiset{last.next} else multiset{}
  }

  /** No source is handed in twice. */
  ghost predicate Fresh(initial: Option<Source>, events: seq<Event>) {
    forall x: Source :: Given(initial, events)[x] <= 1
  }

  // ---- Conservation ----

  /** How many places hold the source: in use, waiting, about to be closed, closed. */
  function Places(s: State, x: Source): nat {
    Held(s.current)[x] + Held(s.pending)[x] + s.deferred[x] + s.closes[x]
  }

  lemma StepConserves(s: State, e: Event, x: Source)
    requires Enabled(s, e)
    ensures Places(Step(s, e), x) == Places(s, x) + if e == Swap(x) then 1 else 0
  {}

  lemma StepKeepsEmpty(s: State, e: Event)
    requires Enabled(s, e) && (s.closed ==> s.current.None? && s.pending.None?)
    ensures Step(s, e).closed ==> Step(s, e).current.None? && Step(s, e).pending.None?
  {}

  /** A source handed in is in exactly one place, as often as it was handed in. */
  lemma {:induction false} Conservation(initial: Option<Source>, events: seq<Event>, x: Source)
    requires Legal(initial, events)
    ensures Places(Run(initial, events), x) == Given(initial, events)[x]
  {
    if events == [] {
    } else {
      var front := events[..|events| - 1];
      Conservation(initial, front, x);
      StepConserves(Run(initial, front), events[|events| - 1], x);
    }
  }

  lemma {:induction false} ClosedIsEmpty(initial: Option<Source>, events: seq<Event>)
    requires Legal(initial, events)
    ensures Run(initial, events).closed ==> Run(initial, events).current.None? && Run(initial, events).pending.None?
  {
    if events == [] {
    } else {
      ClosedIsEmpty(initial, events[..|events| - 1]);
      StepKeepsEmpty(Run(initial, events[..|events| - 1]), events[|events| - 1]);
    }
  }

  /** Nothing is closed twice, and nothing is closed while it is in use or waiting. */
  lemma ClosedAtMostOnce(initial: Option<Source>, events: seq<Event>, x: Source)
    requires Legal(initial, events) && Fresh(initial, events)
    ensures var s := Run(initial, events);
            && s.closes[x] <= 1
            && (Some(x) == s.current || Some(x) == s.pending ==> s.closes[x] == 0 && s.deferred[x] == 0)
            && (s.current.Some? ==> s.current != s.pending)
  {
    Conservation(initial, events, x);
    if Run(initial, events).current.Some? {
      Conservation(initial, events, Run(initial, events).current.value);
    }
  }

  /** After Close, once the closes that were left to run have run, every source handed in has been closed exactly once. */
  lemma ClosedExactlyOnce(initial: Option<Source>, events: seq<Event>)
    requires Legal(initial, events) && Fresh(initial, events)
    requires Close in events && Run(initial, events).deferred == multiset{}
    ensures Run(initial, events).closes == Given(initial, events)
    ensures forall x :: x in Given(initial, events) ==> Run(initial, events).closes[x] == 1
  {
    ClosedStays(initial, events);
    ClosedIsEmpty(initial, events);
    forall x: Source
      ensures Run(initial, events).closes[x] == Given(initial, events)[x]
    {
      Conservation(initial, events, x);
    }
  }

  lemma {:induction false} ClosedStays(initial: Option<Source>, events: seq<Event>)
    requires Legal(initial, events)
    ensures Run(initial, events).closed <==> Close in events
  {
    if events == [] {
    } else {
      ClosedStays(initial, events[..|events| - 1]);
      assert events == events[..|events| - 1] + [events[|events| - 1]];
    }
  }

  // ---- Which source is read ----

  /** The source handed in last. */
  function Latest(initial: Option<Source>, events: seq<Event>): Option<Source> {
    if events == [] then initial
    else
      var last := events[|events| - 1];
      if last.Swap? then Some(last.next) else Latest(initial, events[..|events| - 1])
  }

  lemma {:induction false} LatestIsNext(initial: Option<Source>, events: seq<Event>)
    requires Legal(initial, events) && Close !in events
    ensures var s := Run(initial, events);
            Latest(initial, events) == if s.pending.Some? then s.pending else s.current
  {
    if events == [] {
    } else {
      var front := events[..|events| - 1];
      assert events == front + [events[|events| - 1]];
      ClosedStays(initial, front);
      LatestIsNext(initial, front);
    }
  }

  /** A Read that begins after any number of swaps takes the last of them; after Close it finds the end of the stream. */
  lemma ReadTakesLatest(initial: Option<Source>, events: seq<Event>)
    requires Legal(initial, events)
    ensures Legal(initial, events + [Apply])
    ensures Run(initial, events + [Apply]).current == if Close in events then None else Latest(initial, events)
  {
    assert (events + [Apply])[..|events|] == events;
    ClosedStays(initial, events);
    ClosedIsEmpty(initial, events);
    if Close !in events {
      LatestIsNext(initial, events);
    }
  }

  /**
   Between the moment a reader has taken its source and the moment it is done with it, only another reader or Close
   can have the source closed: swaps alone never do.
   */
  lemma {:induction false} SwapsLeaveTheReaderAlone(initial: Option<Source>, before: seq<Event>, during: seq<Event>)
    requires Legal(initial, before + during) && Legal(initial, before)
    requires Run(initial, before).current.Some? && Fresh(initial, before + during)
    requires Apply !in during && Close !in during
    ensures Run(initial, before + during).current == Run(initial, before).current
    ensures Run(initial, before + during).closes[Run(initial, before).current.value] == 0
  {
    KeepsCurrent(initial, before, during);
    ClosedAtMostOnce(initial, before + during, Run(initial, before).current.value);
  }

  lemma {:induction false} KeepsCurrent(initial: Option<Source>, before: seq<Event>, during: seq<Event>)
    requires Legal(initial, before + during) && Legal(initial, before)
    requires Apply !in during && Close !in during
    ensures Run(initial, before + during).current == Run(initial, before).current
  {
    if during == [] {
      assert before + during == before;
    } else {
      var front := during[..|during| - 1];
      assert (before + during)[..|before + during| - 1] == before + front;
      assert during == front + [during[|during| - 1]];
      KeepsCurrent(initial, before, front);
    }
  }

  // ---- What the generation counts ----

  /** The swap at i is still waiting: nothing has taken it, replaced it or closed the reader. */
  ghost predicate Waiting(events: seq<Event>, i: nat) {
    i < |events| && events[i].Swap? && (forall k :: 0 <= k < i ==> events[k] != Close)
    && (forall k :: i < k < |events| ==> events[k].Retire?)
  }

  /** The swap at i took effect: a Read came before another Swap or Close did. */
  ghost predicate Taken(events: seq<Event>, i: nat) {
    exists j :: i < j < |events| && events[j] == Apply && Waiting(events[..j], i)
  }

  ghost function TakenSwaps(events: seq<Event>): set<nat> { set i | 0 <= i < |events| && Taken(events, i) }

  lemma TakenSteps(front: seq<Event>, last: Event)
    ensures TakenSwaps(front + [last])
            == TakenSwaps(front) + if last == Apply then set i | 0 <= i < |front| && Waiting(front, i) else {}
  {
    var events := front + [last];
    forall i: nat
      ensures Taken(events, i) <==> Taken(front, i) || (last == Apply && Waiting(front, i))
    {
      assert forall j :: i < j < |front| ==> events[j] == front[j] && events[..j] == front[..j];
      assert events[..|front|] == front;
      if last == Apply && Waiting(front, i) {
        assert events[|front|] == Apply && Waiting(events[..|front|], i);
      }
      if Taken(front, i) {
        var j :| i < j < |front| && front[j] == Apply && Waiting(front[..j], i);
        assert events[j] == Apply && Waiting(events[..j], i);
      }
    }
    var more := if last == Apply then set i | 0 <= i < |front| && Waiting(front, i) else {};
    assert forall i: nat :: i in TakenSwaps(events) <==> i in TakenSwaps(front) + more;
  }

  lemma WaitingSteps(front: seq<Event>, last: Event)
    ensures (exists i :: Waiting(front + [last], i))
            <==> (last.Swap? && Close !in front) || (last.Retire? && exists i :: Waiting(front, i))
  {
    var events := front + [last];
    if last.Swap? && Close !in front {
      assert forall k :: 0 <= k < |front| ==> front[k] in front;
      assert Waiting(events, |front|);
    }
    if last.Retire? {
      forall i: nat | Waiting(front, i)
        ensures Waiting(events, i)
      {}
    }
    forall i: nat | Waiting(events, i)
      ensures (last.Swap? && Close !in front) || (last.Retire? && Waiting(front, i))
    {
      assert i < |front| ==> events[|front|] == last && forall k :: 0 <= k < |front| ==> events[k] == front[k];
      assert i == |front| ==> forall k :: 0 <= k < |front| ==> events[k] == front[k];
    }
  }

  /** A swap is pending iff one is waiting. */
  lemma {:induction false} PendingIsWaiting(initial: Option<Source>, events: seq<Event>)
    requires Legal(initial, events)
    ensures Run(initial, events).pending.Some? <==> exists i :: Waiting(events, i)
  {
    if events == [] {
    } else {
      var front, last := events[..|events| - 1], events[|events| - 1];
      assert events == front + [last];
      PendingIsWaiting(initial, front);
      ClosedStays(initial, front);
      ClosedIsEmpty(initial, front);
      WaitingSteps(front, last);
    }
  }

  lemma WaitingIsUnique(events: seq<Event>, i: nat)
    requires Waiting(events, i)
    ensures (set k | 0 <= k < |events| && Waiting(events, k)) == {i}
  {
    forall k: nat | Waiting(events, k)
      ensures k == i
    {
      assert events[i].Swap? && events[k].Swap?;
    }
  }

  lemma TakenIsNotWaiting(events: seq<Event>, i: nat)
    requires Taken(events, i)
    ensures !Waiting(events, i)
  {
    var j :| i < j < |events| && events[j] == Apply && Waiting(events[..j], i);
  }

  lemma GenerationSteps(front: seq<Event>, last: Event)
    ensures |TakenSwaps(front + [last])|
            == |TakenSwaps(front)| + if last == Apply && (exists i :: Waiting(front, i)) then 1 else 0
  {
    TakenSteps(front, last);
    var waiting := set i | 0 <= i < |front| && Waiting(front, i);
    if i :| Waiting(front, i) {
      WaitingIsUnique(front, i);
      if i in TakenSwaps(front) {
        TakenIsNotWaiting(front, i);
      }
      assert TakenSwaps(front) !! {i};
    } else {
      assert waiting == {};
    }
  }

  /** generation is the number of swaps that took effect. */
  lemma {:induction false} GenerationCountsTaken(initial: Option<Source>, events: seq<Event>)
    requires Legal(initial, events)
    ensures Run(initial, events).generation == |TakenSwaps(events)|
  {
    if events == [] {
      assert TakenSwaps(events) == {};
    } else {
      var front, last := events[..|events| - 1], events[|events| - 1];
      assert events == front + [last];
      GenerationCountsTaken(initial, front);
      PendingIsWaiting(initial, front);
      GenerationSteps(front, last);
    }
  }

  // ---- The reader itself ----

  /** Fields updated in place, one method per operation; between lock regions other threads may do anything. */
  class SwitchableReader {
    var current: Option<Source>
    var pending: Option<Source>
    var closed: bool
    var generation: nat

    ghost const initial: Option<Source>
    ghost var trace: seq<Event>
    ghost var deferred: multiset<Source>
    ghost var closes: multiset<Source>

    ghost predicate Valid()
      reads this
    {
      Legal(initial, trace)
      && Run(initial, trace) == State(current, pending, closed, generation, deferred, closes)
    }

    constructor (initial: Option<Source>)
      ensures Valid() && this.initial == initial && trace == []
    {
      current, pending, closed, generation := initial, None, false, 0;
      this.initial, trace, deferred, closes := initial, [], multiset{}, multiset{};
    }

    /** Writes one step into the history. */
    ghost method Note(e: Event)
      requires Legal(initial, trace) && Enabled(Run(initial, trace), e)
      modifies this`trace
      ensures trace == old(trace) + [e] && Legal(initial, trace)
      ensures Run(initial, trace) == Step(Run(initial, old(trace)), e)
    {
      assert (trace + [e])[..|trace|] == trace;
      trace := trace + [e];
    }

    /** applyPending's lock region; what it replaced is still to be closed. */
    method ApplyLocked() returns (previous: Option<Source>)
      requires Valid()
      modifies this
      ensures Valid() && trace == old(trace) + [Apply]
      ensures closes == old(closes) && deferred == old(deferred) + Held(previous)
    {
      Note(Apply);
      if pending.None? {
        return None;
      }
      previous := current;
      current := pending;
      pending := None;
      generation := generation + 1;
      deferred := deferred + Held(previous);
    }

    /** Swap's lock region: a source that was waiting is closed in it, a refused one is still to be closed. */
    method SwapLocked(next: Source) returns (refused: bool)
      requires Valid()
      modifies this
      ensures Valid() && trace == old(trace) + [Event.Swap(next)]
      ensures refused == old(closed) && old(closes) <= closes
      ensures !refused ==> pending == Some(next) && current == old(current)
      ensures deferred == old(deferred) + if refused then multiset{next} else multiset{}
    {
      Note(Event.Swap(next));
      if closed {
        deferred := deferred + multiset{next};
        return true;
      }
      if pending.Some? {
        closes := closes + multiset{pending.value};
      }
      pending := Some(next);
      refused := false;
    }

    /** Close's lock region. */
    method CloseLocked() returns (active: Option<Source>, waiting: Option<Source>)
      requires Valid()
      modifies this
      ensures Valid() && closed && trace == old(trace) + [Event.Close]
      ensures closes == old(closes) && deferred == old(deferred) + Held(waiting) + Held(active)
      ensures if old(closed) then active == None && waiting == None
              else active == old(current) && waiting == old(pending)
    {
      Note(Event.Close);
      if closed {
        return None, None;
      }
      closed := true;
      active, waiting := current, pending;
      current, pending := None, None;
      deferred := deferred + Held(waiting) + Held(active);
    }

    /** A source's own Close, called outside the lock. */
    method RetireOne(source: Source)
      requires Valid() && source in deferred
      modifies this
      ensures Valid() && trace == old(trace) + [Retire(source)]
      ensures closes == old(closes) + multiset{source} && deferred == old(deferred) - multiset{source}
    {
      Note(Retire(source));
      deferred := deferred - multiset{source};
      closes := closes + multiset{source};
    }

    method RetireHeld(held: Option<Source>)
      requires Valid() && Held(held) <= deferred
      modifies this
      ensures Valid() && old(trace) <= trace && closed == old(closed)
      ensures closes == old(closes) + Held(held) && deferred == old(deferred) - Held(held)
    {
      ClosedStays(initial, trace);
      if held.Some? {
        RetireOne(held.value);
      }
      ClosedStays(initial, trace);
    }

    /** Any number of steps of other threads, which never make the Close calls that this thread has left to make. */
    method Interfere(ghost mine: multiset<Source>)
      requires Valid() && mine <= deferred
      modifies this
      ensures Valid() && mine <= deferred
      ensures old(trace) <= trace && old(closes) <= closes && (old(closed) ==> closed)
    {
      var steps: int := *;
      while steps > 0
        invariant Valid() && mine <= deferred
        invariant old(trace) <= trace && old(closes) <= closes && (old(closed) ==> closed)
      {
        steps := steps - 1;
        OtherStep(mine);
      }
    }

    method OtherStep(ghost mine: multiset<Source>)
      requires Valid() && mine <= deferred
      modifies this
      ensures Valid() && mine <= deferred
      ensures old(trace) <= trace && old(closes) <= closes && (old(closed) ==> closed)
    {
      ClosedStays(initial, trace);
      var choice: int := *;
      var source: int := *;
      if choice == 0 {
        var _ := ApplyLocked();
      } else if choice == 1 && source >= 0 {
        var _ := SwapLocked(source);
      } else if choice == 2 {
        var _, _ := CloseLocked();
      } else if source >= 0 {
        RetireIfLeft(source, mine);
      }
      ClosedStays(initial, trace);
    }

    method RetireIfLeft(source: Source, ghost mine: multiset<Source>)
      requires Valid() && mine <= deferred
      modifies this
      ensures Valid() && mine <= deferred && old(trace) <= trace && old(closes) <= closes
    {
      ghost var left := source in deferred - mine;
      if left {
        Note(Retire(source));
        deferred := deferred - multiset{source};
        closes := closes + multiset{source};
      }
    }

    /** Read: the source that is asked for bytes, None when the stream is at its end. */
    method Read() returns (source: Option<Source>, ghost at: nat)
      requires Valid()
      modifies this
      ensures Valid() && at <= |trace| && old(trace) + [Apply] <= trace[..at] && Legal(initial, trace[..at])
      ensures source == Run(initial, trace[..at]).current
    {
      var previous := ApplyLocked();
      Interfere(Held(previous));
      RetireHeld(previous);
      Interfere(multiset{});
      source, at := current, |trace|;
      assert trace[..|trace|] == trace;
    }

    /** Swap: the replacement waits for the next Read, or is closed at once when the reader is closed. */
    method Swap(next: Source)
      requires Valid()
      modifies this
      ensures Valid() && old(trace) + [Event.Swap(next)] <= trace
      ensures if old(closed) then next in closes else pending == Some(next) && current == old(current)
    {
      var refused := SwapLocked(next);
      if refused {
        Interfere(multiset{next});
        RetireOne(next);
      }
    }

    /** Close: what was in use and what was waiting are closed by the time it returns. */
    method Close()
      requires Valid()
      modifies this
      ensures Valid() && closed && old(trace) + [Event.Close] <= trace
      ensures !old(closed) ==> Held(old(pending)) + Held(old(current)) <= closes
    {
      var active, waiting := CloseLocked();
      Interfere(Held(waiting) + Held(active));
      RetireHeld(waiting);
      Interfere(Held(active));
      RetireHeld(active);
    }
  }
}
