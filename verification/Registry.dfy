/**
 The device table (internal/discovery/registry.go:117-147, 248-344): observations of a speaker under different service
 types are merged into one entry, and entries that nobody announces any more are swept. A zero lastSeen is Go's zero
 time. The table's history is a sequence of events, and each entry is the merge of what was observed under its key.
 */
module Registry {
  import opened Words
  import opened Text
  import opened MacAddress

  const MDNS := "mdns"
  const STATIC := "static"
  const AIRPLAY2 := "airplay2"

  type Txt = map<string, string>

  datatype Device = Device(id: string, name: string, model: string, address: string, port: int, features: string,
                           protocol: string, requiresPassword: bool, isBusy: bool, lastSeen: nat, source: string,
                           raopPort: int, airPlayPort: int, mac: string, txt: Txt)

  /** registryKey */
  function Key(o: Device): string {
    if NormalizeMAC(o.mac) != "" then NormalizeMAC(o.mac)
    else if o.id != "" then if FromInstanceName(o.id) != "" then FromInstanceName(o.id) else o.id
    else ToLower(o.name)
  }

  /** What Upsert fills in before it merges. */
  function Stamped(o: Device, now: nat): Device {
    o.(lastSeen := if o.lastSeen == 0 then now else o.lastSeen, source := if o.source == "" then MDNS else o.source)
  }

  /** An entry made from a first observation. */
  function First(o: Device): Device { if o.id == "" then o.(id := Key(o)) else o }

  function Told(text: string, otherwise: string): string { if text != "" then text else otherwise }

  function ToldPort(port: int, otherwise: int): int { if port != 0 then port else otherwise }

  /** The records under some of the keys whose values are not blank. */
  function Telling(more: Txt, keys: set<string>): Txt {
    map key | key in more && key in keys && TrimSpace(more[key]) != "" :: more[key]
  }

  /** TXT records: values that are not blank replace what is there. */
  function MergeTxt(known: Txt, more: Txt): Txt { known + Telling(more, more.Keys) }

  /** mergeDevice */
  function Merge(e: Device, o: Device): Device {
    Device(
      id := if e.id == "" then Key(o) else e.id,
      name := Told(o.name, e.name),
      model := Told(o.model, e.model),
      address := Told(o.address, e.address),
      port := if o.port != 0 && (e.port == 0 || o.airPlayPort != 0) then o.port else e.port,
      features := Told(o.features, e.features),
      protocol := if o.protocol != "" && (e.protocol != AIRPLAY2 || o.protocol == AIRPLAY2) then o.protocol else e.protocol,
      requiresPassword := e.requiresPassword || o.requiresPassword,
      isBusy := e.isBusy,
      lastSeen := if o.source != STATIC && o.lastSeen != 0 then o.lastSeen else e.lastSeen,
      source := o.source,
      raopPort := ToldPort(o.raopPort, e.raopPort),
      airPlayPort := ToldPort(o.airPlayPort, e.airPlayPort),
      mac := if o.mac != "" then NormalizeMAC(o.mac) else e.mac,
      txt := MergeTxt(e.txt, o.txt))
  }

  /** The merge of a sequence of observations. */
  function Merged(os: seq<Device>): Device
    requires os != []
  {
    if |os| == 1 then First(os[0]) else Merge(Merged(os[..|os| - 1]), os[|os| - 1])
  }

  // ---- What an entry says about its observations ----

  /** An AirPlay record: it names the AirPlay service's port. */
  predicate IsAirPlay(o: Device) { o.airPlayPort != 0 && o.port != 0 }

  /** The port the entry is to have: the last AirPlay record's if there is one, else the first that is not zero. */
  function ProperPort(os: seq<Device>): int {
    if exists i :: 0 <= i < |os| && IsAirPlay(os[i]) then LastAirPlay(os) else FirstPort(os)
  }

  function LastAirPlay(os: seq<Device>): int {
    if os == [] then 0 else if IsAirPlay(os[|os| - 1]) then os[|os| - 1].port else LastAirPlay(os[..|os| - 1])
  }

  function FirstPort(os: seq<Device>): int {
    if os == [] then 0 else if os[0].port != 0 then os[0].port else FirstPort(os[1..])
  }

  lemma {:induction false} FirstPortAppend(os: seq<Device>, o: Device)
    ensures FirstPort(os + [o]) == if FirstPort(os) != 0 then FirstPort(os) else o.port
  {
    if os == [] {
      assert os + [o] == [o] && [o][1..] == [];
    } else {
      assert (os + [o])[1..] == os[1..] + [o];
      FirstPortAppend(os[1..], o);
    }
  }

  lemma {:induction false} LastAirPlayIsOne(os: seq<Device>)
    ensures LastAirPlay(os) != 0 <==> exists i :: 0 <= i < |os| && IsAirPlay(os[i])
  {
    if os == [] {
    } else {
      var front := os[..|os| - 1];
      LastAirPlayIsOne(front);
      assert forall i :: 0 <= i < |front| ==> front[i] == os[i];
      if IsAirPlay(os[|os| - 1]) {
        assert os[|os| - 1].port != 0;
      }
    }
  }

  /** Whatever the order in which _airplay and _raop records come in. */
  lemma {:induction false} MergedPort(os: seq<Device>)
    requires os != []
    ensures Merged(os).port == ProperPort(os)
  {
    var front, last := os[..|os| - 1], os[|os| - 1];
    assert os == front + [last];
    LastAirPlayIsOne(os);
    FirstPortAppend(front, last);
    if |os| > 1 {
      MergedPort(front);
      LastAirPlayIsOne(front);
    } else {
      assert front == [];
    }
  }

  predicate IsAirPlay2(o: Device) { o.protocol == AIRPLAY2 }

  lemma {:induction false} MergedProtocol(os: seq<Device>)
    requires os != []
    ensures IsAirPlay2(Merged(os)) <==> exists i :: 0 <= i < |os| && IsAirPlay2(os[i])
  {
    if |os| <= 1 {
    } else {
      var front := os[..|os| - 1];
      MergedProtocol(front);
      SomeOfThem(os, front, os[|os| - 1]);
      MergeProtocol(Merged(front), os[|os| - 1]);
    }
  }

  lemma SomeOfThem(os: seq<Device>, front: seq<Device>, last: Device)
    requires os == front + [last]
    ensures (exists i :: 0 <= i < |os| && IsAirPlay2(os[i]))
            <==> IsAirPlay2(last) || exists i :: 0 <= i < |front| && IsAirPlay2(front[i])
  {
    assert os[|front|] == last;
    forall i | 0 <= i < |front|
      ensures IsAirPlay2(os[i]) <==> IsAirPlay2(front[i])
    {}
  }

  lemma MergeProtocol(e: Device, o: Device)
    ensures IsAirPlay2(Merge(e, o)) <==> IsAirPlay2(e) || IsAirPlay2(o)
  {}

  /** The last text that is not empty, and the last port that is not zero. */
  function LatestText(os: seq<Device>, field: Device -> string): string {
    if os == [] then "" else Told(field(os[|os| - 1]), LatestText(os[..|os| - 1], field))
  }

  function LatestPort(os: seq<Device>, field: Device -> int): int {
    if os == [] then 0 else ToldPort(field(os[|os| - 1]), LatestPort(os[..|os| - 1], field))
  }

  /** Everything that an observation leaves empty is what an earlier one said last. */
  lemma {:induction false} MergedFields(os: seq<Device>)
    requires os != []
    ensures Merged(os).name == LatestText(os, (d: Device) => d.name)
    ensures Merged(os).model == LatestText(os, (d: Device) => d.model)
    ensures Merged(os).address == LatestText(os, (d: Device) => d.address)
    ensures Merged(os).features == LatestText(os, (d: Device) => d.features)
    ensures Merged(os).raopPort == LatestPort(os, (d: Device) => d.raopPort)
    ensures Merged(os).airPlayPort == LatestPort(os, (d: Device) => d.airPlayPort)
  {
    if |os| > 1 {
      MergedFields(os[..|os| - 1]);
    } else {
      assert os[..|os| - 1] == [];
    }
  }

  /** The last value under a TXT key that is not blank. */
  function LatestRecord(os: seq<Device>, key: string): Option<string> {
    if os == [] then None
    else
      var more := os[|os| - 1].txt;
      if key in more && TrimSpace(more[key]) != "" then Some(more[key]) else LatestRecord(os[..|os| - 1], key)
  }

  /** Blank TXT values never replace others; where all are blank, the entry's first observation decides. */
  lemma {:induction false} MergedRecords(os: seq<Device>, key: string)
    requires os != []
    ensures var txt := Merged(os).txt;
            match LatestRecord(os, key)
            case Some(value) => key in txt && txt[key] == value
            case None => (key in txt <==> key in os[0].txt) && (key in txt ==> txt[key] == os[0].txt[key])
  {
    if |os| > 1 {
      MergedRecords(os[..|os| - 1], key);
    } else {
      assert os[..|os| - 1] == [] && LatestRecord(os[..|os| - 1], key) == None;
      assert Merged(os).txt == os[0].txt;
    }
  }

  /** Once an observation asks for a password the entry does, whatever later ones say. */
  lemma {:induction false} PasswordIsNeverTakenBack(os: seq<Device>)
    requires os != []
    ensures Merged(os).requiresPassword <==> exists i :: 0 <= i < |os| && os[i].requiresPassword
  {
    var front, last := os[..|os| - 1], os[|os| - 1];
    assert os == front + [last];
    if front == [] {
      assert Merged(os).requiresPassword == os[0].requiresPassword;
    } else {
      PasswordIsNeverTakenBack(front);
      assert Merged(os).requiresPassword == (Merged(front).requiresPassword || last.requiresPassword);
      forall i | 0 <= i < |front|
        ensures os[i].requiresPassword == front[i].requiresPassword
      {}
      assert os[|front|] == last;
    }
  }

  /** The last hardware address that an observation after the first gave, in its normal form. */
  function LatestMAC(os: seq<Device>): Option<string> {
    if |os| <= 1 then None
    else if os[|os| - 1].mac != "" then Some(NormalizeMAC(os[|os| - 1].mac)) else LatestMAC(os[..|os| - 1])
  }

  /** Who an entry is: its id is the first observation's if that has one, its address the last one told. */
  lemma {:induction false} MergedIdentity(os: seq<Device>)
    requires os != []
    ensures os[0].id != "" ==> Merged(os).id == os[0].id
    ensures os[0].id == "" && Key(os[0]) != "" ==> Merged(os).id == Key(os[0])
    ensures Merged(os).mac == match LatestMAC(os) case Some(mac) => mac case None => os[0].mac
    ensures Merged(os).isBusy == os[0].isBusy
  {
    if |os| == 1 {
    } else {
      MergedIdentity(os[..|os| - 1]);
    }
  }

  /**
   A record that gives the address and one that only has it in its instance name, before the @, have one key: both
   services of a speaker end up in one entry.
   */
  lemma InstanceNameIsEnough(o: Device, named: Device, head: string, rest: string)
    requires NormalizeMAC(o.mac) != "" && named.mac == "" && named.id == head + "@" + rest
    requires Lacks(head, '@') && NormalizeMAC(head) == NormalizeMAC(o.mac)
    ensures Key(o) == Key(named) == NormalizeMAC(o.mac)
  {
    CutJoined(head, '@', rest);
    assert named.id == head + ['@'] + rest;
    assert TrimSpace("") == "" && Stripped("") == "";
  }

  /** An id that is no instance name is the key itself, unless the record gives an address. */
  lemma IdIsTheKey(o: Device)
    requires NormalizeMAC(o.mac) == "" && o.id != "" && Lacks(o.id, '@')
    ensures Key(o) == o.id
  {
    CutNone(o.id, '@');
  }

  /** A record with neither address nor id goes under its name, capitals made small. */
  lemma NameIsTheLastResort(o: Device)
    requires NormalizeMAC(o.mac) == "" && o.id == ""
    ensures |Key(o)| == |o.name|
    ensures forall i :: 0 <= i < |o.name| ==>
              Key(o)[i] == if 'A' <= o.name[i] <= 'Z' then (o.name[i] as int + 32) as char else o.name[i]
  {}

  /** Two observations of one speaker: which service was seen first leaves no trace in port and protocol. */
  lemma OrderOfServicesIsIrrelevant(airplay: Device, raop: Device)
    requires IsAirPlay(airplay) && airplay.protocol == AIRPLAY2 && raop.airPlayPort == 0
    ensures Merged([airplay, raop]).port == Merged([raop, airplay]).port == airplay.port
    ensures Merged([airplay, raop]).protocol == Merged([raop, airplay]).protocol == AIRPLAY2
  {
    assert [airplay, raop][..1] == [airplay] && [raop, airplay][..1] == [raop];
  }

  /** The source is the last observation's: one mDNS announcement makes an operator's entry an ordinary one. */
  lemma MergedSource(os: seq<Device>)
    requires os != []
    ensures Merged(os).source == os[|os| - 1].source
    ensures os[|os| - 1].source != STATIC && os[|os| - 1].lastSeen != 0 ==> Merged(os).lastSeen == os[|os| - 1].lastSeen
  {}

  // ---- The table ----

  datatype Event = Upsert(observation: Device, now: nat) | Sweep(ttl: int, now: nat)

  type Table = map<string, Device>

  predicate Expired(d: Device, cutoff: int) { d.source != STATIC && d.lastSeen != 0 && d.lastSeen < cutoff }

  /** The table without its expired entries, except for those under the given keys. */
  function Kept(t: Table, cutoff: int, spared: set<string>): Table {
    map key | key in t && (key in spared || !Expired(t[key], cutoff)) :: t[key]
  }

  function Swept(t: Table, ttl: int, now: nat): Table {
    if ttl <= 0 then t else Kept(t, now - ttl, {})
  }

  function Step(t: Table, e: Event): Table {
    match e
    case Upsert(observation, now) =>
      var o := Stamped(observation, now);
      t[Key(o) := if Key(o) in t then Merge(t[Key(o)], o) else First(o)]
    case Sweep(ttl, now) => Swept(t, ttl, now)
  }

  function Run(events: seq<Event>): Table {
    if events == [] then map[] else Step(Run(events[..|events| - 1]), events[|events| - 1])
  }

  /** The observations under a key since its entry was made. */
  function Observed(events: seq<Event>, key: string): seq<Device> {
    if events == [] then []
    else
      var before := Observed(events[..|events| - 1], key);
      match events[|events| - 1]
      case Upsert(observation, now) =>
        if Key(Stamped(observation, now)) == key then before + [Stamped(observation, now)] else before
      case Sweep(_, _) => if key in Run(events) then before else []
  }

  /**
   An observation changes the entry under its key and no other. Without a source it counts as an mDNS announcement,
   without a time as seen now; the operator's observations never refresh an entry.
   */
  lemma UpsertIsStamped(t: Table, o: Device, now: nat)
    requires now > 0
    ensures var key, after := Key(o), Step(t, Upsert(o, now));
            && after.Keys == t.Keys + {key} && (forall k :: k in t && k != key ==> after[k] == t[k])
            && after[key].source == (if o.source == "" then "mdns" else o.source)
            && after[key].lastSeen == (if key in t && o.source == "static" then t[key].lastSeen
                                       else if o.lastSeen == 0 then now else o.lastSeen)
  {
    assert Key(Stamped(o, now)) == Key(o);
  }

  /** Every entry of every reachable table is the merge of the observations under its key, and of nothing else. */
  lemma {:induction false} EntriesAreMerged(events: seq<Event>, key: string)
    ensures key in Run(events) <==> Observed(events, key) != []
    ensures key in Run(events) ==> Run(events)[key] == Merged(Observed(events, key))
    ensures forall i :: 0 <= i < |Observed(events, key)| ==> Key(Observed(events, key)[i]) == key
  {
    if events == [] {
    } else {
      var front, last := events[..|events| - 1], events[|events| - 1];
      EntriesAreMerged(front, key);
      if last.Upsert? {
        var o := Stamped(last.observation, last.now);
        var before := Observed(front, key);
        assert (before + [o])[..|before|] == before;
      }
    }
  }

  /** So port, protocol and source of any reachable entry are what its observations say. */
  lemma EntryIsFaithful(events: seq<Event>, key: string)
    requires key in Run(events)
    ensures var os := Observed(events, key); var d := Run(events)[key];
            && os != [] && d.port == ProperPort(os) && d.source == os[|os| - 1].source
            && (IsAirPlay2(d) <==> exists i :: 0 <= i < |os| && IsAirPlay2(os[i]))
  {
    EntriesAreMerged(events, key);
    MergedPort(Observed(events, key));
    MergedProtocol(Observed(events, key));
    MergedSource(Observed(events, key));
  }

  // ---- One entry per address ----

  lemma MergeKeepsMAC(e: Device, o: Device, key: string)
    requires NormalizeMAC(e.mac) != "" ==> NormalizeMAC(e.mac) == key
    requires Key(o) == key
    ensures NormalizeMAC(Merge(e, o).mac) != "" ==> NormalizeMAC(Merge(e, o).mac) == key
  {
    NormalizeIsIdempotent(o.mac);
  }

  lemma {:induction false} KeyIsMAC(events: seq<Event>)
    ensures forall key :: key in Run(events) && NormalizeMAC(Run(events)[key].mac) != "" ==>
              NormalizeMAC(Run(events)[key].mac) == key
  {
    if events == [] {
    } else {
      var front, last := events[..|events| - 1], events[|events| - 1];
      KeyIsMAC(front);
      if last.Upsert? {
        var o := Stamped(last.observation, last.now);
        if Key(o) in Run(front) {
          MergeKeepsMAC(Run(front)[Key(o)], o, Key(o));
        }
      }
    }
  }

  /** No reachable table has two entries for one hardware address, however it was spelled. */
  lemma OneEntryPerMAC(events: seq<Event>, a: string, b: string)
    requires a in Run(events) && b in Run(events)
    requires NormalizeMAC(Run(events)[a].mac) == NormalizeMAC(Run(events)[b].mac) != ""
    ensures a == b
  {
    KeyIsMAC(events);
  }

  // ---- Expiry ----

  lemma {:induction false} ObservedAreSeen(events: seq<Event>, key: string)
    requires forall i :: 0 <= i < |events| && events[i].Upsert? ==> events[i].now > 0
    ensures forall i :: 0 <= i < |Observed(events, key)| ==> Observed(events, key)[i].lastSeen > 0
  {
    if events == [] {
    } else {
      ObservedAreSeen(events[..|events| - 1], key);
    }
  }

  /**
   A sweep takes an entry exactly when its last observation was an announcement, not the operator's, and is older than
   the lifetime; otherwise it leaves the entry as it was.
   */
  lemma SweptIffStale(events: seq<Event>, key: string, ttl: int, now: nat)
    requires forall i :: 0 <= i < |events| && events[i].Upsert? ==> events[i].now > 0
    requires key in Run(events)
    ensures var os := Observed(events, key);
            && os != []
            && (key !in Swept(Run(events), ttl, now)
                <==> ttl > 0 && os[|os| - 1].source != STATIC && os[|os| - 1].lastSeen < now - ttl)
    ensures key in Swept(Run(events), ttl, now) ==> Swept(Run(events), ttl, now)[key] == Run(events)[key]
  {
    var os := Observed(events, key);
    assert os != [] && Run(events)[key] == Merged(os) by { EntriesAreMerged(events, key); }
    assert os[|os| - 1].lastSeen > 0 by { ObservedAreSeen(events, key); }
    MergedSource(os);
  }

  // ---- The table itself ----

  lemma TellingOne(known: Txt, more: Txt, done: set<string>, key: string)
    requires key in more
    ensures known + Telling(more, done + {key})
            == if TrimSpace(more[key]) == "" then known + Telling(more, done)
               else (known + Telling(more, done))[key := more[key]]
  {}

  /** The loop over an observation's TXT records. */
  method MergeRecords(known: Txt, more: Txt) returns (txt: Txt)
    ensures txt == MergeTxt(known, more)
  {
    txt := known;
    var left := more.Keys;
    ghost var done := {};
    while left != {}
      invariant left <= more.Keys && done + left == more.Keys
      invariant txt == known + Telling(more, done)
      decreases |left|
    {
      var key :| key in left;
      left := left - {key};
      TellingOne(known, more, done, key);
      done := done + {key};
      if TrimSpace(more[key]) == "" {
        continue;
      }
      txt := txt[key := more[key]];
    }
  }

  method MergeDevice(existing: Device, o: Device) returns (e: Device)
    ensures e == Merge(existing, o)
  {
    var source, lastSeen := existing.source, existing.lastSeen;
    if o.source == STATIC && source != STATIC {
      source := STATIC;
    }
    if o.source != STATIC {
      if o.lastSeen != 0 {
        lastSeen := o.lastSeen;
      }
      source := o.source;
    }
    var mac := existing.mac;
    if o.mac != "" {
      mac := ComputeMAC(o.mac);
    }
    var protocol := existing.protocol;
    if o.protocol != "" {
      if protocol != AIRPLAY2 || o.protocol == AIRPLAY2 {
        protocol := o.protocol;
      }
    }
    var port := existing.port;
    if o.port != 0 {
      if port == 0 || o.airPlayPort != 0 {
        port := o.port;
      }
    }
    var txt := MergeRecords(existing.txt, o.txt);
    var id := existing.id;
    if id == "" {
      id := Key(o);
    }
    e := Device(id, Told(o.name, existing.name), Told(o.model, existing.model), Told(o.address, existing.address), port,
                Told(o.features, existing.features), protocol, existing.requiresPassword || o.requiresPassword,
                existing.isBusy, lastSeen, source, ToldPort(o.raopPort, existing.raopPort),
                ToldPort(o.airPlayPort, existing.airPlayPort), mac, txt);
  }

  lemma KeptOne(t: Table, cutoff: int, spared: set<string>, key: string)
    requires key in t && key in spared
    ensures Kept(t, cutoff, spared - {key})
            == if Expired(t[key], cutoff) then Kept(t, cutoff, spared) - {key} else Kept(t, cutoff, spared)
  {}

  /** The table's map is reassigned by every operation, each one region of the lock. */
  class DeviceTable {
    var devices: Table
    const ttl: int
    ghost var events: seq<Event>

    ghost predicate Valid()
      reads this
    {
      devices == Run(events)
    }

    constructor (ttl: int)
      ensures Valid() && this.ttl == ttl && events == []
    {
      this.ttl, devices, events := ttl, map[], [];
    }

    method Upsert(observation: Device, now: nat) returns (stored: Device)
      requires Valid()
      modifies this
      ensures Valid() && events == old(events) + [Event.Upsert(observation, now)]
      ensures Key(Stamped(observation, now)) in devices && devices[Key(Stamped(observation, now))] == stored
    {
      events := events + [Event.Upsert(observation, now)];
      assert events[..|events| - 1] == old(events);
      var o := Stamped(observation, now);
      var key := Key(o);
      if key !in devices {
        stored := if o.id == "" then o.(id := key) else o;
      } else {
        stored := MergeDevice(devices[key], o);
      }
      devices := devices[key := stored];
    }

    /** The entries it removes are the ones it returns, each once. */
    method Sweep(now: nat) returns (expired: seq<Device>)
      requires Valid()
      modifies this
      ensures Valid() && events == old(events) + [Event.Sweep(ttl, now)]
      ensures exists keys :: Removed(old(devices), devices, keys, expired)
    {
      events := events + [Event.Sweep(ttl, now)];
      assert events[..|events| - 1] == old(events);
      expired := [];
      if ttl <= 0 {
        assert Removed(old(devices), devices, [], expired);
        return;
      }
      expired := RemoveExpired(now - ttl);
    }

    method RemoveExpired(cutoff: int) returns (expired: seq<Device>)
      modifies this`devices
      ensures devices == Kept(old(devices), cutoff, {})
      ensures exists keys :: Removed(old(devices), devices, keys, expired)
    {
      expired := [];
      var left := devices.Keys;
      ghost var was := devices;
      ghost var keys: seq<string> := [];
      assert devices == Kept(was, cutoff, left);
      while left != {}
        invariant left <= was.Keys && devices == Kept(was, cutoff, left)
        invariant Removed(was, devices, keys, expired)
        decreases |left|
      {
        var key :| key in left;
        var device := devices[key];
        KeptOne(was, cutoff, left, key);
        left := left - {key};
        if device.source == STATIC || device.lastSeen == 0 {
          continue;
        }
        if device.lastSeen < cutoff {
          RemoveOne(was, devices, keys, expired, key);
          expired := expired + [device];
          keys := keys + [key];
          devices := devices - {key};
        }
      }
    }
  }

  /** The entries under these keys, and no others, are gone; they are listed in the order of the keys. */
  ghost predicate Removed(was: Table, now: Table, keys: seq<string>, gone: seq<Device>) {
    && |keys| == |gone|
    && (forall i, j :: 0 <= i < j < |keys| ==> keys[i] != keys[j])
    && (forall i :: 0 <= i < |keys| ==> keys[i] in was && keys[i] !in now && was[keys[i]] == gone[i])
    && (forall key :: key in was && key !in now ==> key in keys)
    && (forall key :: key in now ==> key in was && now[key] == was[key])
  }

  lemma RemoveOne(was: Table, now: Table, keys: seq<string>, gone: seq<Device>, key: string)
    requires Removed(was, now, keys, gone) && key in now
    ensures Removed(was, now - {key}, keys + [key], gone + [now[key]])
  {}
}
