/**
 The session table (internal/engine/manager.go:105-178, 181-193, 292-355): which started kernels it can still reach.
 Start takes its lock twice, with the kernel started in between; stopping forgets a device after its kernel was told
 to stop. Each lock region is a step, so runs interleave calls in every way.
 */
module Sessions {
  /** A kernel's number doubles as the identity of the Start call that makes it. */
  type Kernel = nat
  type DeviceID = string

  /**
   sessions is the table; starting holds the Start calls between their two lock regions, with their device; active the
   kernels that are buffering, playing or paused; closing those that Shutdown has taken out and is about to close;
   closed those that the manager has called Close on.
   */
  datatype State = State(sessions: map<DeviceID, Kernel>, starting: map<Kernel, DeviceID>, active: set<Kernel>,
                         closing: set<Kernel>, closed: set<Kernel>)

  datatype Event =
    | Check(device: DeviceID, kernel: Kernel)   // Start, first region
    | Launch(kernel: Kernel)                    // the kernel starts
    | Abort(kernel: Kernel)                     // the kernel does not start and is closed
    | Install(kernel: Kernel)                   // Start, second region
    | End(kernel: Kernel)                       // a kernel stops, by itself or when told to
    | Forget(device: DeviceID)                  // the end of a stop
    | Prune
    | Shutdown                                  // its lock region
    | CloseOne(kernel: Kernel)                  // one of the closes after it

  const EMPTY := State(map[], map[], {}, {}, {})

  predicate Occupied(s: State, device: DeviceID) { device in s.sessions && s.sessions[device] in s.active }

  ghost predicate Enabled(s: State, e: Event) {
    match e
    case Check(_, kernel) =>
      kernel !in s.starting && kernel !in s.active && kernel !in s.closing && kernel !in s.sessions.Values
    case Launch(kernel) => kernel in s.starting && kernel !in s.active
    case Abort(kernel) => kernel in s.starting && kernel !in s.active
    case Install(kernel) => kernel in s.starting
    case CloseOne(kernel) => kernel in s.closing
    case _ => true
  }

  function Step(s: State, e: Event): State {
    match e
    case Check(device, kernel) =>
      if Occupied(s, device) then s
      else s.(sessions := s.sessions - {device}, starting := s.starting[kernel := device])
    case Launch(kernel) => s.(active := s.active + {kernel})
    case Abort(kernel) => s.(starting := s.starting - {kernel}, closed := s.closed + {kernel})
    case Install(kernel) =>
      if kernel !in s.starting then s
      else s.(sessions := s.sessions[s.starting[kernel] := kernel], starting := s.starting - {kernel})
    case End(kernel) => s.(active := s.active - {kernel})
    case Forget(device) => s.(sessions := s.sessions - {device})
    case Prune =>
      s.(sessions := Live(s.sessions, s.active), closed := s.closed + (s.sessions.Values - s.active))
    case Shutdown => s.(sessions := map[], closing := s.closing + s.sessions.Values)
    case CloseOne(kernel) =>
      s.(closing := s.closing - {kernel}, active := s.active - {kernel}, closed := s.closed + {kernel})
  }

  function Live(sessions: map<DeviceID, Kernel>, active: set<Kernel>): map<DeviceID, Kernel> {
    map device | device in sessions && sessions[device] in active :: sessions[device]
  }

  ghost predicate Legal(events: seq<Event>) {
    events == [] ||
    (Legal(events[..|events| - 1]) && Enabled(Run(events[..|events| - 1]), events[|events| - 1]))
  }

  function Run(events: seq<Event>): State {
    if events == [] then EMPTY else Step(Run(events[..|events| - 1]), events[|events| - 1])
  }

  /** A running kernel that no call can reach any more: nobody will ever stop it. */
  ghost predicate Orphan(s: State, kernel: Kernel) {
    kernel in s.active && kernel !in s.starting && kernel !in s.closing && kernel !in s.sessions.Values
  }

  // ---- A kernel is in one place ----

  ghost predicate Disjoint(s: State) {
    && (forall a, b :: a in s.sessions && b in s.sessions && s.sessions[a] == s.sessions[b] ==> a == b)
    && (forall kernel :: kernel in s.sessions.Values ==> kernel !in s.starting && kernel !in s.closing)
    && s.starting.Keys !! s.closing
  }

  lemma StepKeepsDisjoint(s: State, e: Event)
    requires Disjoint(s) && Enabled(s, e)
    ensures Disjoint(Step(s, e))
  {
    var t := Step(s, e);
    forall kernel | kernel in t.sessions.Values
      ensures kernel !in t.starting && kernel !in t.closing
    {
      var device :| device in t.sessions && t.sessions[device] == kernel;
      if !(e.Install? && kernel == e.kernel) && device in s.sessions && s.sessions[device] == kernel {
        assert kernel in s.sessions.Values;
      }
    }
  }

  lemma {:induction false} AlwaysDisjoint(events: seq<Event>)
    requires Legal(events)
    ensures Disjoint(Run(events))
  {
    if events == [] {
    } else {
      AlwaysDisjoint(events[..|events| - 1]);
      StepKeepsDisjoint(Run(events[..|events| - 1]), events[|events| - 1]);
    }
  }

  // ---- Where orphans come from ----

  /** An Install or a Forget that finds another running session under its device. */
  predicate Displaces(s: State, e: Event) {
    match e
    case Install(kernel) => kernel in s.starting && Occupied(s, s.starting[kernel])
    case Forget(device) => Occupied(s, device)
    case _ => false
  }

  /** A step makes an orphan if and only if it displaces a running session (that Shutdown has not already taken). */
  lemma OrphanedIffDisplaced(s: State, e: Event)
    requires Disjoint(s) && Enabled(s, e)
    ensures (exists kernel :: Orphan(Step(s, e), kernel) && !Orphan(s, kernel))
            <==> Displaces(s, e) && s.sessions[if e.Install? then s.starting[e.kernel] else e.device] !in s.closing
  {
    if Displaces(s, e) {
      var device := if e.Install? then s.starting[e.kernel] else e.device;
      var lost := s.sessions[device];
      assert lost in s.sessions.Values;
      if lost !in s.closing {
        DisplacedIsOrphan(s, e, device);
      }
    }
    forall kernel | Orphan(Step(s, e), kernel) && !Orphan(s, kernel)
      ensures Displaces(s, e) && kernel == s.sessions[if e.Install? then s.starting[e.kernel] else e.device]
    {
      OrphanWasDisplaced(s, e, kernel);
    }
  }

  lemma DisplacedIsOrphan(s: State, e: Event, device: DeviceID)
    requires Disjoint(s) && Enabled(s, e) && Displaces(s, e)
    requires device == if e.Install? then s.starting[e.kernel] else e.device
    requires s.sessions[device] !in s.closing
    ensures Orphan(Step(s, e), s.sessions[device]) && !Orphan(s, s.sessions[device])
  {
    assert s.sessions[device] in s.sessions.Values;
  }

  lemma OrphanWasDisplaced(s: State, e: Event, kernel: Kernel)
    requires Enabled(s, e) && Orphan(Step(s, e), kernel) && !Orphan(s, kernel)
    ensures Displaces(s, e) && kernel == s.sessions[if e.Install? then s.starting[e.kernel] else e.device]
  {
    var t := Step(s, e);
    if kernel in s.sessions.Values {
      var device :| device in s.sessions && s.sessions[device] == kernel;
      if device in t.sessions {
        assert t.sessions[device] in t.sessions.Values;
      }
    }
    if e.Install? {
      assert t.sessions[s.starting[e.kernel]] in t.sessions.Values;
    }
  }

  // ---- Runs without orphans ----

  /** No step of the run displaces a running session. */
  ghost predicate Orderly(events: seq<Event>) {
    events == [] ||
    (Orderly(events[..|events| - 1]) && !Displaces(Run(events[..|events| - 1]), events[|events| - 1]))
  }

  lemma {:induction false} NoOrphans(events: seq<Event>, kernel: Kernel)
    requires Legal(events) && Orderly(events)
    ensures !Orphan(Run(events), kernel)
  {
    if events == [] {
    } else {
      var front := events[..|events| - 1];
      NoOrphans(front, kernel);
      if Orphan(Run(events), kernel) {
        OrphanWasDisplaced(Run(front), events[|events| - 1], kernel);
      }
    }
  }

  /** So after a Shutdown whose closes have run, only Start calls still under way have a kernel running. */
  lemma ShutdownStopsAll(events: seq<Event>)
    requires Legal(events) && Orderly(events)
    requires Run(events).sessions == map[] && Run(events).closing == {}
    ensures Run(events).active <= Run(events).starting.Keys
  {
    forall kernel | kernel in Run(events).active
      ensures kernel in Run(events).starting
    {
      NoOrphans(events, kernel);
    }
  }

  // ---- Calls that keep out of each other's way ----

  /** A Check that lets its Start call go on. */
  predicate Passes(s: State, e: Event, device: DeviceID) {
    e.Check? && e.device == device && !Occupied(s, device)
  }

  /** No Start call passes its check while another one for the same device is still between its two regions. */
  ghost predicate StartsApart(events: seq<Event>) {
    events == [] ||
    var front, last := events[..|events| - 1], events[|events| - 1];
    StartsApart(front) && (last.Check? && Passes(Run(front), last, last.device) ==>
                             last.device !in Run(front).starting.Values)
  }

  /** A starting device has no session, and only one Start call. */
  ghost predicate Apart(s: State) {
    && (forall k :: k in s.starting ==> s.starting[k] !in s.sessions)
    && (forall j, k :: j in s.starting && k in s.starting && s.starting[j] == s.starting[k] ==> j == k)
  }

  lemma {:induction false} StayApart(events: seq<Event>)
    requires Legal(events) && StartsApart(events)
    ensures Apart(Run(events))
  {
    if events == [] {
    } else {
      var front, last := events[..|events| - 1], events[|events| - 1];
      StayApart(front);
      StepStaysApart(Run(front), last);
    }
  }

  lemma StepStaysApart(s: State, e: Event)
    requires Apart(s) && Enabled(s, e)
    requires e.Check? && Passes(s, e, e.device) ==> e.device !in s.starting.Values
    ensures Apart(Step(s, e))
  {
    var t := Step(s, e);
    forall k | k in t.starting && k in s.starting
      ensures s.starting[k] in s.starting.Values
    {}
  }

  /** So no Start call ever displaces a session: what a caller has to see to is that checks do not overlap. */
  lemma InstallsDisplaceNothing(events: seq<Event>, kernel: Kernel)
    requires Legal(events) && StartsApart(events)
    ensures !Displaces(Run(events), Install(kernel))
  {
    StayApart(events);
  }

  /**
   The converse: from any state that a run can reach, two Start calls for one device that have both passed their check
   can go on so that one of their kernels is out of reach for good.
   */
  lemma OverlapCanOrphan(events: seq<Event>, j: Kernel, k: Kernel) returns (more: seq<Event>)
    requires Legal(events) && j != k && j in Run(events).starting && k in Run(events).starting
    requires Run(events).starting[j] == Run(events).starting[k]
    ensures Legal(events + more) && Orphan(Run(events + more), j)
  {
    var e1 := EnsureActive(events, j);
    AlwaysDisjoint(e1);
    Extend(e1, Install(j));
    var e2 := e1 + [Install(j)];
    AlwaysDisjoint(e2);
    Extend(e2, Install(k));
    var e3 := e2 + [Install(k)];
    more := e3[|events|..];
    assert e3 == events + more;
    InstalledOver(Run(e1), j, k);
  }

  lemma EnsureActive(events: seq<Event>, j: Kernel) returns (longer: seq<Event>)
    requires Legal(events) && j in Run(events).starting
    ensures Legal(longer) && events <= longer && j in Run(longer).active
    ensures Run(longer).starting == Run(events).starting
  {
    longer := events;
    if j !in Run(events).active {
      Extend(events, Launch(j));
      longer := events + [Launch(j)];
    }
  }

  lemma InstalledOver(s: State, j: Kernel, k: Kernel)
    requires Disjoint(s) && j != k && j in s.starting && k in s.starting && s.starting[j] == s.starting[k] && j in s.active
    ensures Orphan(Step(Step(s, Install(j)), Install(k)), j)
  {
    var t := Step(Step(s, Install(j)), Install(k));
    forall device | device in t.sessions
      ensures t.sessions[device] != j
    {
      if device != s.starting[j] {
        assert t.sessions[device] == s.sessions[device] && s.sessions[device] in s.sessions.Values;
      }
    }
  }

  /**
   The end of a stop comes in time: the kernel that was told to stop had the device's session then, and no Start call
   for the device has passed its check since.
   */
  ghost predicate StoppedSince(events: seq<Event>, device: DeviceID, i: nat) {
    && i < |events| && events[i].End?
    && device in Run(events[..i]).sessions && Run(events[..i]).sessions[device] == events[i].kernel
    && forall j :: i < j < |events| ==> !Passes(Run(events[..j]), events[j], device)
  }

  /** Every Start call keeps apart from others for its device, every stop from Start calls for its device. */
  ghost predicate KeepApart(events: seq<Event>) {
    events == [] ||
    var front, last := events[..|events| - 1], events[|events| - 1];
    && KeepApart(front)
    && (last.Check? && Passes(Run(front), last, last.device) ==> last.device !in Run(front).starting.Values)
    && (last.Forget? ==> exists i :: StoppedSince(front, last.device, i))
  }

  lemma {:induction false} KeepApartStarts(events: seq<Event>)
    requires KeepApart(events)
    ensures StartsApart(events)
  {
    if events == [] {
    } else {
      KeepApartStarts(events[..|events| - 1]);
    }
  }

  /** Nothing takes the place of a stopped session until a Start call passes its check. */
  lemma {:induction false} StoppedStaysDown(events: seq<Event>, device: DeviceID, i: nat)
    requires Legal(events) && StartsApart(events) && StoppedSince(events, device, i)
    ensures var s := Run(events); var kernel := events[i].kernel;
            && device !in s.starting.Values
            && (device !in s.sessions
                || (s.sessions[device] == kernel && kernel !in s.starting && kernel !in s.active))
  {
    var front, last := events[..|events| - 1], events[|events| - 1];
    AlwaysDisjoint(front);
    StayApart(front);
    if i == |front| {
      JustStopped(Run(front), device, last.kernel);
    } else {
      assert front[..i] == events[..i] && events[..|front|] == front;
      assert forall j :: i < j < |front| ==> front[..j] == events[..j];
      assert StoppedSince(front, device, i);
      StoppedStaysDown(front, device, i);
      DownStep(Run(front), last, device, events[i].kernel);
    }
  }

  lemma JustStopped(s: State, device: DeviceID, kernel: Kernel)
    requires Disjoint(s) && Apart(s) && device in s.sessions && s.sessions[device] == kernel
    ensures var t := Step(s, End(kernel));
            && device !in t.starting.Values && kernel !in t.starting && kernel !in t.active
            && device in t.sessions && t.sessions[device] == kernel
  {
    assert kernel in s.sessions.Values;
    assert forall k :: k in s.starting ==> s.starting[k] != device;
  }

  lemma DownStep(s: State, e: Event, device: DeviceID, kernel: Kernel)
    requires Disjoint(s) && Enabled(s, e) && !Passes(s, e, device) && device !in s.starting.Values
    requires device !in s.sessions
             || (s.sessions[device] == kernel && kernel !in s.starting && kernel !in s.active)
    ensures var t := Step(s, e);
            && device !in t.starting.Values
            && (device !in t.sessions
                || (t.sessions[device] == kernel && kernel !in t.starting && kernel !in t.active))
  {
    var t := Step(s, e);
    if device in s.sessions {
      assert s.sessions[device] in s.sessions.Values;
    }
    forall k | k in t.starting
      ensures t.starting[k] != device
    {
      if k in s.starting {
        assert s.starting[k] in s.starting.Values;
      }
    }
    if e.Install? {
      assert s.starting[e.kernel] in s.starting.Values;
    }
  }

  /** Calls that keep apart lose no kernel: no step of such a run displaces a running session. */
  lemma {:induction false} KeepApartIsOrderly(events: seq<Event>)
    requires Legal(events) && KeepApart(events)
    ensures Orderly(events)
  {
    if events == [] {
    } else {
      var front, last := events[..|events| - 1], events[|events| - 1];
      KeepApartIsOrderly(front);
      KeepApartStarts(front);
      if last.Install? {
        InstallsDisplaceNothing(front, last.kernel);
      } else if last.Forget? {
        var i :| StoppedSince(front, last.device, i);
        StoppedStaysDown(front, last.device, i);
      }
    }
  }

  /** So every running kernel stays within reach, in every such run. */
  lemma CallsKeptApartLoseNothing(events: seq<Event>, kernel: Kernel)
    requires Legal(events) && KeepApart(events)
    ensures !Orphan(Run(events), kernel)
  {
    KeepApartIsOrderly(events);
    NoOrphans(events, kernel);
  }

  /** Overlapping calls do occur: both pass the check, both install, and the first kernel is out of reach. */
  lemma OverlappingStarts(device: DeviceID)
    ensures var events := [Check(device, 1), Check(device, 2), Launch(1), Launch(2), Install(1), Install(2)];
            Legal(events) && Orphan(Run(events), 1)
  {
    var e1 := [Check(device, 1)];
    var e2 := e1 + [Check(device, 2)];
    var e3 := e2 + [Launch(1)];
    var e4 := e3 + [Launch(2)];
    var e5 := e4 + [Install(1)];
    var e6 := e5 + [Install(2)];
    Extend([], Check(device, 1));
    assert [] + [Check(device, 1)] == e1;
    Extend(e1, Check(device, 2));
    assert Run(e2) == State(map[], map[1 := device, 2 := device], {}, {}, {});
    Extend(e2, Launch(1));
    Extend(e3, Launch(2));
    assert Run(e4) == State(map[], map[1 := device, 2 := device], {1, 2}, {}, {});
    Extend(e4, Install(1));
    assert Run(e5) == State(map[device := 1], map[2 := device], {1, 2}, {}, {});
    Extend(e5, Install(2));
    assert Run(e6) == State(map[device := 2], map[], {1, 2}, {}, {});
    assert e6 == [Check(device, 1), Check(device, 2), Launch(1), Launch(2), Install(1), Install(2)];
  }

  /**
   A stop that comes too late does as much: from any state in which a device has no running session, as after its kernel
   was told to stop, a Start call for it may run to its end before the stop forgets the device, and what it forgets is
   the new session.
   */
  lemma StopCanOrphan(events: seq<Event>, device: DeviceID, kernel: Kernel) returns (more: seq<Event>)
    requires Legal(events) && !Occupied(Run(events), device) && Enabled(Run(events), Check(device, kernel))
    ensures more == [Check(device, kernel), Launch(kernel), Install(kernel), Forget(device)]
    ensures Legal(events + more) && Orphan(Run(events + more), kernel)
  {
    var e1 := events + [Check(device, kernel)];
    var e2 := e1 + [Launch(kernel)];
    var e3 := e2 + [Install(kernel)];
    var e4 := e3 + [Forget(device)];
    Extend(events, Check(device, kernel));
    Extend(e1, Launch(kernel));
    Extend(e2, Install(kernel));
    assert Run(e3).sessions[device] == kernel;
    AlwaysDisjoint(e3);
    Extend(e3, Forget(device));
    more := [Check(device, kernel), Launch(kernel), Install(kernel), Forget(device)];
    assert e4 == events + more;
  }

  // ---- Which kernels the manager closes ----

  /** Some call of the manager still has the kernel. */
  predicate Held(s: State, kernel: Kernel) {
    kernel in s.starting || kernel in s.closing || kernel in s.sessions.Values
  }

  /**
   The step takes a session out of the table without calling Close on its kernel: the first region of Start when the
   session has ended, its second region when there is one by then, and the end of a stop.
   */
  predicate Drops(s: State, e: Event, kernel: Kernel) {
    match e
    case Check(device, _) => device in s.sessions && s.sessions[device] == kernel && kernel !in s.active
    case Install(k) => k in s.starting && s.starting[k] in s.sessions && s.sessions[s.starting[k]] == kernel
    case Forget(device) => device in s.sessions && s.sessions[device] == kernel
    case _ => false
  }

  /** A kernel that is held stays so until it is closed or dropped. */
  lemma ClosedOrDropped(s: State, e: Event, kernel: Kernel)
    requires Disjoint(s) && Enabled(s, e) && Held(s, kernel) && kernel !in s.closed
    ensures var t := Step(s, e);
            && (Held(t, kernel) || kernel in t.closed <==> !Drops(s, e, kernel))
            && !(Held(t, kernel) && kernel in t.closed)
  {
    var t := Step(s, e);
    if kernel in s.sessions.Values {
      var device :| device in s.sessions && s.sessions[device] == kernel;
      if device in t.sessions && t.sessions[device] == kernel {
        assert kernel in t.sessions.Values;
      }
    }
    if e.Install? && e.kernel == kernel {
      assert t.sessions[s.starting[kernel]] == kernel;
    }
    forall device | device in t.sessions && t.sessions[device] == kernel
      ensures kernel in s.sessions.Values || (e.Install? && e.kernel == kernel)
    {
      if device in s.sessions && s.sessions[device] == kernel {
        assert kernel in s.sessions.Values;
      }
    }
  }

  /** A kernel that is not held comes back only with a Start call of its own. */
  lemma StaysOut(s: State, e: Event, kernel: Kernel)
    requires Enabled(s, e) && !Held(s, kernel) && !(e.Check? && e.kernel == kernel)
    ensures !Held(Step(s, e), kernel) && (kernel in Step(s, e).closed <==> kernel in s.closed)
  {
    var t := Step(s, e);
    forall device | device in t.sessions && t.sessions[device] == kernel
      ensures device in s.sessions && s.sessions[device] == kernel
    {}
  }

  /** The i-th event is the first region of the one Start call that makes the kernel. */
  ghost predicate StartedAt(events: seq<Event>, i: nat, kernel: Kernel) {
    && i < |events| && events[i].Check? && events[i].kernel == kernel
    && Passes(Run(events[..i]), events[i], events[i].device) && kernel !in Run(events[..i]).closed
    && forall j :: i < j < |events| ==> !(events[j].Check? && events[j].kernel == kernel)
  }

  ghost predicate Dropped(events: seq<Event>, i: nat, kernel: Kernel) {
    exists j :: i < j < |events| && Drops(Run(events[..j]), events[j], kernel)
  }

  /**
   In every run: a kernel is never closed, now and from now on, exactly when some step has dropped its session. Unless
   dropped it is held until the manager has called Close on it.
   */
  lemma {:induction false} NeverClosedIffDropped(events: seq<Event>, i: nat, kernel: Kernel)
    requires Legal(events) && StartedAt(events, i, kernel)
    ensures !Held(Run(events), kernel) && kernel !in Run(events).closed <==> Dropped(events, i, kernel)
    ensures !(Held(Run(events), kernel) && kernel in Run(events).closed)
  {
    var front, last := events[..|events| - 1], events[|events| - 1];
    if |events| == i + 1 {
      assert front == events[..i] && kernel in Run(events).starting;
    } else {
      StartedBefore(events, i, kernel);
      NeverClosedIffDropped(front, i, kernel);
      AlwaysDisjoint(front);
      DroppedNow(events, i, kernel);
      if Held(Run(front), kernel) {
        ClosedOrDropped(Run(front), last, kernel);
      } else {
        StaysOut(Run(front), last, kernel);
        assert !Drops(Run(front), last, kernel) by { DropsHeld(Run(front), last, kernel); }
      }
    }
  }

  lemma DropsHeld(s: State, e: Event, kernel: Kernel)
    requires !Held(s, kernel)
    ensures !Drops(s, e, kernel)
  {}

  lemma StartedBefore(events: seq<Event>, i: nat, kernel: Kernel)
    requires StartedAt(events, i, kernel) && i + 1 < |events|
    ensures StartedAt(events[..|events| - 1], i, kernel)
  {
    assert events[..|events| - 1][..i] == events[..i];
  }

  lemma DroppedNow(events: seq<Event>, i: nat, kernel: Kernel)
    requires i + 1 < |events|
    ensures Dropped(events, i, kernel) <==> Dropped(events[..|events| - 1], i, kernel)
                                            || Drops(Run(events[..|events| - 1]), events[|events| - 1], kernel)
  {
    var front := events[..|events| - 1];
    forall j | i < j < |front|
      ensures front[..j] == events[..j] && front[j] == events[j]
    {}
    if Dropped(front, i, kernel) {
      var j :| i < j < |front| && Drops(Run(front[..j]), front[j], kernel);
      assert Drops(Run(events[..j]), events[j], kernel);
    }
  }

  // ---- Shutdown and prune ----

  /** After a Shutdown the table is empty: a Start call for any device passes its check. */
  lemma ShutdownFreesEverything(before: seq<Event>, device: DeviceID, kernel: Kernel)
    requires Legal(before)
    ensures Legal(before + [Shutdown]) && device !in Run(before + [Shutdown]).sessions
    ensures Passes(Run(before + [Shutdown]), Check(device, kernel), device)
    ensures forall k <- Run(before).sessions.Values :: k in Run(before + [Shutdown]).closing
  {
    Extend(before, Shutdown);
  }

  /** A kernel that Shutdown took is about to be closed, or closed for good. */
  predicate Going(s: State, kernel: Kernel) {
    kernel in s.closing || (kernel in s.closed && kernel !in s.active && !Held(s, kernel))
  }

  lemma StaysGoing(s: State, e: Event, kernel: Kernel)
    requires Disjoint(s) && Enabled(s, e) && Going(s, kernel) && !(e.Check? && e.kernel == kernel)
    ensures Going(Step(s, e), kernel)
  {
    if !Held(s, kernel) {
      StaysOut(s, e, kernel);
    } else if e.CloseOne? && e.kernel == kernel {
      forall device | device in s.sessions
        ensures s.sessions[device] != kernel
      {
        assert s.sessions[device] in s.sessions.Values;
      }
    }
  }

  /** A kernel's number belongs to one Start call. */
  predicate NoCheckOf(events: seq<Event>, kernel: Kernel) {
    forall e <- events :: !(e.Check? && e.kernel == kernel)
  }

  lemma {:induction false} GoingOn(before: seq<Event>, after: seq<Event>, kernel: Kernel)
    requires Legal(before + [Shutdown] + after) && NoCheckOf(after, kernel) && kernel in Run(before).sessions.Values
    ensures Going(Run(before + [Shutdown] + after), kernel)
  {
    var events := before + [Shutdown] + after;
    var front := events[..|events| - 1];
    if after == [] {
      assert events[..|events| - 1] == before;
    } else {
      var fewer := after[..|after| - 1];
      assert front == before + [Shutdown] + fewer;
      GoingOn(before, fewer, kernel);
      AlwaysDisjoint(front);
      assert events[|events| - 1] == after[|after| - 1];
      StaysGoing(Run(front), after[|after| - 1], kernel);
    }
  }

  /**
   In every legal run in which a Shutdown is followed by whatever happens until its closes have run: every kernel that
   was in the table has been closed, is no longer active, and no call of the manager has it any more.
   */
  lemma ShutdownCloses(before: seq<Event>, after: seq<Event>, kernel: Kernel)
    requires Legal(before + [Shutdown] + after) && Run(before + [Shutdown] + after).closing == {}
    requires kernel in Run(before).sessions.Values && NoCheckOf(after, kernel)
    ensures var s := Run(before + [Shutdown] + after);
            kernel in s.closed && kernel !in s.active && !Held(s, kernel)
  {
    GoingOn(before, after, kernel);
  }

  /** The closes can always run to their end. */
  lemma {:induction false} ClosesRunOut(events: seq<Event>) returns (longer: seq<Event>)
    requires Legal(events)
    ensures Legal(longer) && Run(longer).closing == {}
    ensures events <= longer && forall i :: |events| <= i < |longer| ==> longer[i].CloseOne?
    decreases |Run(events).closing|
  {
    if Run(events).closing == {} {
      longer := events;
    } else {
      var kernel :| kernel in Run(events).closing;
      Extend(events, CloseOne(kernel));
      OneLess(events, kernel);
      longer := ClosesRunOut(events + [CloseOne(kernel)]);
    }
  }

  lemma OneLess(events: seq<Event>, kernel: Kernel)
    requires Legal(events) && kernel in Run(events).closing
    ensures |Run(events + [CloseOne(kernel)]).closing| < |Run(events).closing|
  {
    Extend(events, CloseOne(kernel));
    assert Run(events + [CloseOne(kernel)]).closing == Run(events).closing - {kernel};
  }

  /** A prune closes the kernel of every ended session and frees its device; running sessions stay as they are. */
  lemma PruneFreesEnded(events: seq<Event>, device: DeviceID)
    requires Legal(events) && device in Run(events).sessions
    ensures Legal(events + [Prune])
    ensures var s, t := Run(events), Run(events + [Prune]); var kernel := s.sessions[device];
            if kernel in s.active then device in t.sessions && t.sessions[device] == kernel
            else device !in t.sessions && kernel in t.closed && forall k :: Passes(t, Check(device, k), device)
  {
    Extend(events, Prune);
  }

  lemma Extend(events: seq<Event>, e: Event)
    requires Legal(events) && Enabled(Run(events), e)
    ensures Legal(events + [e]) && Run(events + [e]) == Step(Run(events), e)
  {
    assert (events + [e])[..|events|] == events;
  }

  // ---- The table itself ----

  /** The manager's map, changed in place. active is what the kernels report of themselves. */
  class SessionTable {
    var sessions: map<DeviceID, Kernel>
    var active: set<Kernel>
    ghost var starting: map<Kernel, DeviceID>
    ghost var closing: set<Kernel>
    ghost var closed: set<Kernel>
    ghost var events: seq<Event>

    ghost function Current(): State
      reads this
    {
      State(sessions, starting, active, closing, closed)
    }

    /** The table is in the state of a legal run, so the theorems about runs are theorems about it. */
    ghost predicate Valid()
      reads this
    {
      Legal(events) && Run(events) == Current()
    }

    constructor ()
      ensures Valid() && events == []
    {
      sessions, active, starting, closing, closed, events := map[], {}, map[], {}, {}, [];
    }

    /** Writes one step into the history. */
    ghost method Note(e: Event)
      requires Legal(events) && Enabled(Run(events), e)
      modifies this`events
      ensures events == old(events) + [e] && Legal(events) && Run(events) == Step(Run(old(events)), e)
    {
      Extend(events, e);
      events := events + [e];
    }

    method CheckLocked(device: DeviceID, ghost kernel: Kernel) returns (ok: bool)
      requires Valid() && Enabled(Current(), Check(device, kernel))
      modifies this
      ensures Valid() && events == old(events) + [Check(device, kernel)]
      ensures ok <==> Passes(old(Current()), Check(device, kernel), device)
    {
      Note(Check(device, kernel));
      if device in sessions {
        if sessions[device] in active {
          return false;
        }
        sessions := sessions - {device};
      }
      assert device !in old(sessions) ==> sessions == old(sessions) - {device};
      starting := starting[kernel := device];
      ok := true;
    }

    /** The kernel between the two regions: it starts, or is closed. */
    method StartKernel(kernel: Kernel) returns (ok: bool)
      requires Valid() && kernel in starting && kernel !in active
      modifies this
      ensures Valid() && events == old(events) + [if ok then Launch(kernel) else Abort(kernel)]
    {
      ok := *;
      if ok {
        Note(Launch(kernel));
        active := active + {kernel};
      } else {
        Note(Abort(kernel));
        starting, closed := starting - {kernel}, closed + {kernel};
      }
    }

    method InstallLocked(device: DeviceID, kernel: Kernel)
      requires Valid() && kernel in starting && starting[kernel] == device
      modifies this
      ensures Valid() && events == old(events) + [Install(kernel)]
    {
      Note(Install(kernel));
      sessions := sessions[device := kernel];
      starting := starting - {kernel};
    }

    /** A kernel stops, by itself or told to by Control. */
    method Stopped(kernel: Kernel)
      requires Valid()
      modifies this
      ensures Valid() && events == old(events) + [End(kernel)]
    {
      Note(End(kernel));
      active := active - {kernel};
    }

    method Forget(device: DeviceID) returns (known: bool)
      requires Valid()
      modifies this
      ensures Valid() && events == old(events) + [Event.Forget(device)]
      ensures known <==> device in old(sessions)
    {
      Note(Event.Forget(device));
      known := device in sessions;
      if known {
        sessions := sessions - {device};
      }
      assert sessions == old(sessions) - {device};
    }

    /** pruneLocked: a loop that closes ended kernels and deletes their sessions while it walks the map. */
    method PruneLocked()
      requires Valid()
      modifies this
      ensures Valid() && events == old(events) + [Prune]
      ensures forall device :: device in sessions <==> device in old(sessions) && old(sessions)[device] in active
      ensures forall kernel <- old(sessions).Values :: kernel !in active ==> kernel in closed
    {
      Note(Prune);
      DeleteEnded();
    }

    method DeleteEnded()
      modifies this`sessions, this`closed
      ensures sessions == Live(old(sessions), active) && closed == old(closed) + (old(sessions).Values - active)
    {
      ghost var was := sessions;
      var left := sessions.Keys;
      ghost var done: set<Kernel> := {};
      while left != {}
        invariant left <= was.Keys
        invariant sessions == map device | device in was && (device in left || was[device] in active) :: was[device]
        invariant closed == old(closed) + done && done <= was.Values - active
        invariant forall device :: device in was && device !in left && was[device] !in active ==> was[device] in done
        decreases |left|
      {
        var device :| device in left;
        left := left - {device};
        if sessions[device] !in active {
          closed, done := closed + {was[device]}, done + {was[device]};
          sessions := sessions - {device};
        }
      }
      assert sessions == Live(was, active);
      assert done == was.Values - active;
    }

    method ShutdownLocked() returns (taken: set<Kernel>)
      requires Valid()
      modifies this
      ensures Valid() && events == old(events) + [Event.Shutdown] && taken == old(sessions).Values
      ensures sessions == map[] && closing == old(closing) + taken
      ensures active == old(active) && starting == old(starting) && closed == old(closed)
    {
      Note(Event.Shutdown);
      taken := sessions.Values;
      closing := closing + taken;
      sessions := map[];
    }

    /** One of the closes that follow. */
    method CloseTaken(kernel: Kernel)
      requires Valid() && kernel in closing
      modifies this
      ensures Valid() && events == old(events) + [CloseOne(kernel)]
      ensures closing == old(closing) - {kernel} && active == old(active) - {kernel}
      ensures closed == old(closed) + {kernel} && sessions == old(sessions) && starting == old(starting)
    {
      Note(CloseOne(kernel));
      closing, active, closed := closing - {kernel}, active - {kernel}, closed + {kernel};
    }

    /** The whole of Shutdown: what was in the table is closed, kernel by kernel. */
    method Shutdown()
      requires Valid()
      modifies this
      ensures Valid() && sessions == map[] && closing == old(closing) - old(sessions).Values
      ensures old(sessions).Values <= closed && active == old(active) - old(sessions).Values
    {
      var left := ShutdownLocked();
      ghost var taken := left;
      while left != {}
        invariant Valid() && left <= taken && sessions == map[] && closing == (old(closing) + taken) - (taken - left)
        invariant taken - left <= closed && active == old(active) - (taken - left)
        decreases |left|
      {
        var kernel :| kernel in left;
        CloseTaken(kernel);
        left := left - {kernel};
      }
    }
  }
}
