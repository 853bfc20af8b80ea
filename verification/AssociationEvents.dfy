/**
 What `AssociationEngine` publishes over a whole run: the events of a person are those of its own history, so the theorems
 about one history hold of the published events.
 */
module AssociationEvents {
  import opened Common
  import opened Types
  import opened SpeedSpikes
  import opened Boxes
  import opened Association
  import opened AssociationHistory

  function OfTrack(events: seq<AssocEvent>, track: int): seq<AssocEvent> {
    if events == [] then []
    else if events[|events| - 1].track == track then OfTrack(events[..|events| - 1], track) + [events[|events| - 1]]
    else OfTrack(events[..|events| - 1], track)
  }

  predicate AllOf(events: seq<AssocEvent>, track: int) {
    events == [] || (events[|events| - 1].track == track && AllOf(events[..|events| - 1], track))
  }

  lemma {:induction false} AllOfConcat(a: seq<AssocEvent>, b: seq<AssocEvent>, track: int)
    requires AllOf(a, track) && AllOf(b, track)
    ensures AllOf(a + b, track)
  {
    if b == [] {
      assert a + b == a;
    } else {
      assert (a + b)[..|a + b| - 1] == a + b[..|b| - 1];
      AllOfConcat(a, b[..|b| - 1], track);
    }
  }

  lemma {:induction false} OfTrackConcat(a: seq<AssocEvent>, b: seq<AssocEvent>, track: int)
    ensures OfTrack(a + b, track) == OfTrack(a, track) + OfTrack(b, track)
  {
    if b == [] {
      assert a + b == a;
    } else {
      assert (a + b)[..|a + b| - 1] == a + b[..|b| - 1];
      OfTrackConcat(a, b[..|b| - 1], track);
    }
  }

  lemma {:induction false} OfOneTrack(events: seq<AssocEvent>, owner: int, track: int)
    requires AllOf(events, owner)
    ensures OfTrack(events, track) == if owner == track then events else []
  {
    if events != [] { OfOneTrack(events[..|events| - 1], owner, track); }
  }

  // ----- an update reports its own person

  lemma {:induction false} ZonesOf(cfg: Config, zones: seq<Zone>, active: set<string>, track: int, bbox: BBox, ts: real)
    ensures AllOf(ZoneEvents(cfg, zones, active, track, bbox, ts), track)
  {
    if zones != [] {
      ZonesOf(cfg, zones[..|zones| - 1], active, track, bbox, ts);
      var one := ZoneEvent(cfg, zones[|zones| - 1], active, track, bbox, ts);
      assert AllOf(one, track) by { if one != [] { assert one[..|one| - 1] == []; } }
      AllOfConcat(ZoneEvents(cfg, zones[..|zones| - 1], active, track, bbox, ts), one, track);
    }
  }

  lemma ShelfOf(cfg: Config, count: nat, track: int, ts: real)
    ensures AllOf(ShelfEvents(cfg, count, track, ts), track)
  {
    var events := ShelfEvents(cfg, count, track, ts);
    if |events| > 0 {
      assert AllOf([events[0]], track) by { assert [events[0]][..0] == []; }
      if |events| == 2 { assert events[..1] == [events[0]]; } else { assert events == [events[0]]; }
    }
  }

  lemma {:induction false} PickupsOf(cfg: Config, ids: seq<int>, track: int, ts: real)
    ensures AllOf(PickupEvents(cfg, ids, track, ts), track)
  {
    if ids != [] {
      PickupsOf(cfg, ids[..|ids| - 1], track, ts);
      var init := PickupEvents(cfg, ids[..|ids| - 1], track, ts);
      assert (init + [Event(cfg, track, ItemPickup, Some(ids[|ids| - 1]), None, ts)])[..|init|] == init;
    }
  }

  lemma SpikesOf(cfg: Config, m: Motion, track: int, bbox: BBox, ts: real)
    ensures AllOf(SpikeEvents(cfg, m, track, bbox, ts), track)
  {
    var events := SpikeEvents(cfg, m, track, bbox, ts);
    if events != [] { assert events[..|events| - 1] == []; }
  }

  lemma UpdateOf(cfg: Config, st: PersonState, l: Look)
    ensures AllOf(Events(cfg, st, l), l.person.track)
  {
    var p, count := l.person, StateAfter(cfg, st, l).framesNearShelf;
    var zone := ZoneEvents(cfg, cfg.zones, st.activeZones, p.track, p.bbox, l.ts);
    var shelf := ShelfEvents(cfg, count, p.track, l.ts);
    var pickups := PickupEvents(cfg, PickedUp(cfg, l.registry, p.bbox, cfg.order(l.gone), l.ts), p.track, l.ts);
    ZonesOf(cfg, cfg.zones, st.activeZones, p.track, p.bbox, l.ts);
    ShelfOf(cfg, count, p.track, l.ts);
    PickupsOf(cfg, PickedUp(cfg, l.registry, p.bbox, cfg.order(l.gone), l.ts), p.track, l.ts);
    SpikesOf(cfg, st.motion, p.track, p.bbox, l.ts);
    AllOfConcat(zone, shelf, p.track);
    AllOfConcat(zone + shelf, pickups, p.track);
    AllOfConcat(zone + shelf + pickups, SpikeEvents(cfg, st.motion, p.track, p.bbox, l.ts), p.track);
  }

  // ----- the events of a history

  lemma ReportsAtEnd(cfg: Config, h: seq<Look>)
    requires h != []
    ensures Reports(cfg)(h) == Events(cfg, PersonRun(cfg, h[..|h| - 1]), h[|h| - 1])
  {
  }

  lemma ReportsNext(cfg: Config, h: seq<Look>, l: Look)
    ensures Reports(cfg)(h + [l]) == Events(cfg, PersonRun(cfg, h), l)
  {
    ReportsAtEnd(cfg, h + [l]);
    assert (h + [l])[..|h + [l]| - 1] == h;
  }

  /** One more person of a frame: what is published for the track is what its own history reports. */
  lemma OneMorePerson(cfg: Config, persons: map<int, PersonState>, l: Look, track: int, h: seq<Look>, before: seq<AssocEvent>)
    requires Holds(cfg, persons, track, h)
    ensures OfTrack(before + Events(cfg, PersonOf(persons, l.person.track), l), track)
      == OfTrack(before, track) + (if l.person.track == track then Reports(cfg)(h + [l]) else [])
  {
    var st := PersonOf(persons, l.person.track);
    UpdateOf(cfg, st, l);
    OfTrackConcat(before, Events(cfg, st, l), track);
    OfOneTrack(Events(cfg, st, l), l.person.track, track);
    if l.person.track == track {
      ReportsNext(cfg, h, l);
      assert PersonRun(cfg, []) == NEW_PERSON;
    }
  }

  lemma EventsAfterNext(cfg: Config, persons: map<int, PersonState>, f: Frame, registry: map<int, Sighting>,
                        gone: set<int>, n: nat)
    requires 0 < n <= |f.persons|
    ensures var l := Look(f.persons[n - 1], f.items, registry, gone, f.ts);
      EventsAfter(cfg, persons, f, registry, gone, n)
        == EventsAfter(cfg, persons, f, registry, gone, n - 1)
           + Events(cfg, PersonOf(PersonsAfter(cfg, persons, f, n - 1), l.person.track), l)
  {
  }

  /** Either nothing happens to the history and to what is published, or one look is added and what it reports. */
  predicate Step(out: seq<Look> -> seq<AssocEvent>, h0: seq<Look>, p0: seq<AssocEvent>, h1: seq<Look>, p1: seq<AssocEvent>) {
    (h1 == h0 && p1 == p0) || (|h1| == |h0| + 1 && h1[..|h0|] == h0 && p1 == p0 + out(h1))
  }

  lemma StepAccounts(
      out: seq<Look> -> seq<AssocEvent>, h: seq<Look>,
      h0: seq<Look>, p0: seq<AssocEvent>, h1: seq<Look>, p1: seq<AssocEvent>)
    requires Outputs(out, h0) == Outputs(out, h) + p0 && Step(out, h0, p0, h1, p1)
    ensures Outputs(out, h1) == Outputs(out, h) + p1
  {
    if |h1| == |h0| + 1 { Regroup(Outputs(out, h), p0, out(h1)); }
  }

  ghost predicate AllSteps(out: seq<Look> -> seq<AssocEvent>, looks: nat -> seq<Look>, published: nat -> seq<AssocEvent>,
                           n: nat) {
    forall i: nat :: i < n ==> Step(out, looks(i), published(i), looks(i + 1), published(i + 1))
  }

  lemma {:induction false} StepsAccount(
      out: seq<Look> -> seq<AssocEvent>, h: seq<Look>, looks: nat -> seq<Look>, published: nat -> seq<AssocEvent>, n: nat)
    requires looks(0) == h && published(0) == []
    requires AllSteps(out, looks, published, n)
    ensures Outputs(out, looks(n)) == Outputs(out, h) + published(n)
  {
    if n == 0 {
      NoMore(Outputs(out, h));
    } else {
      StepsAccount(out, h, looks, published, n - 1);
      StepAccounts(out, h, looks(n - 1), published(n - 1), looks(n), published(n));
    }
  }

  /** The track's history after the first `n` persons of the frame. */
  function LooksTo(f: Frame, registry: map<int, Sighting>, gone: set<int>, track: int, h: seq<Look>): nat -> seq<Look> {
    (n: nat) => if n <= |f.persons| then h + LooksOf(f, registry, gone, track, n) else h
  }

  /** What the first `n` persons published for the track. */
  function PublishedTo(cfg: Config, persons: map<int, PersonState>, f: Frame, registry: map<int, Sighting>,
                       gone: set<int>, track: int): nat -> seq<AssocEvent> {
    (n: nat) => if n <= |f.persons| then OfTrack(EventsAfter(cfg, persons, f, registry, gone, n), track) else []
  }

  lemma PersonStep(cfg: Config, persons: map<int, PersonState>, f: Frame, registry: map<int, Sighting>, gone: set<int>,
                   track: int, h: seq<Look>, n: nat)
    requires n < |f.persons| && Holds(cfg, persons, track, h)
    ensures Step(Reports(cfg), h + LooksOf(f, registry, gone, track, n),
                 OfTrack(EventsAfter(cfg, persons, f, registry, gone, n), track),
                 h + LooksOf(f, registry, gone, track, n + 1),
                 OfTrack(EventsAfter(cfg, persons, f, registry, gone, n + 1), track))
  {
    var h0, l := h + LooksOf(f, registry, gone, track, n), Look(f.persons[n], f.items, registry, gone, f.ts);
    var before := EventsAfter(cfg, persons, f, registry, gone, n);
    PersonsHold(cfg, persons, f, registry, gone, n, track, h);
    OneMorePerson(cfg, PersonsAfter(cfg, persons, f, n), l, track, h0, before);
    EventsAfterNext(cfg, persons, f, registry, gone, n + 1);
    LooksNext(f, registry, gone, track, n + 1, h);
    NoMore(OfTrack(before, track));
  }

  lemma StepTo(cfg: Config, persons: map<int, PersonState>, f: Frame, registry: map<int, Sighting>, gone: set<int>,
               track: int, h: seq<Look>, n: nat)
    requires n < |f.persons| && Holds(cfg, persons, track, h)
    ensures var looks, published := LooksTo(f, registry, gone, track, h), PublishedTo(cfg, persons, f, registry, gone, track);
      Step(Reports(cfg), looks(n), published(n), looks(n + 1), published(n + 1))
  {
    PersonStep(cfg, persons, f, registry, gone, track, h, n);
  }

  lemma PersonSteps(cfg: Config, persons: map<int, PersonState>, f: Frame, registry: map<int, Sighting>, gone: set<int>,
                    track: int, h: seq<Look>)
    requires Holds(cfg, persons, track, h)
    ensures AllSteps(Reports(cfg), LooksTo(f, registry, gone, track, h), PublishedTo(cfg, persons, f, registry, gone, track),
                     |f.persons|)
  {
    var looks, published := LooksTo(f, registry, gone, track, h), PublishedTo(cfg, persons, f, registry, gone, track);
    forall n: nat | n < |f.persons| ensures Step(Reports(cfg), looks(n), published(n), looks(n + 1), published(n + 1)) {
      StepTo(cfg, persons, f, registry, gone, track, h, n);
    }
  }

  lemma StartsEmpty(cfg: Config, persons: map<int, PersonState>, f: Frame, registry: map<int, Sighting>, gone: set<int>,
                    track: int, h: seq<Look>)
    ensures LooksTo(f, registry, gone, track, h)(0) == h
    ensures PublishedTo(cfg, persons, f, registry, gone, track)(0) == []
  {
    NoMore(h);
  }

  /** The events of a frame for one track are those that its looks add to its history. */
  lemma FrameEvents(cfg: Config, persons: map<int, PersonState>, f: Frame, registry: map<int, Sighting>, gone: set<int>,
                    track: int, h: seq<Look>)
    requires Holds(cfg, persons, track, h)
    ensures Outputs(Reports(cfg), LooksTo(f, registry, gone, track, h)(|f.persons|))
      == Outputs(Reports(cfg), h) + PublishedTo(cfg, persons, f, registry, gone, track)(|f.persons|)
  {
    StartsEmpty(cfg, persons, f, registry, gone, track, h);
    PersonSteps(cfg, persons, f, registry, gone, track, h);
    StepsAccount(Reports(cfg), h, LooksTo(f, registry, gone, track, h), PublishedTo(cfg, persons, f, registry, gone, track),
                 |f.persons|);
  }

  // ----- the events of a run

  /** The events that the last frame publishes. */
  function EngineEvents(cfg: Config, frames: seq<Frame>): seq<AssocEvent>
    requires frames != []
  {
    AfterFrame(cfg, EngineRun(cfg, frames[..|frames| - 1]), frames[|frames| - 1]).1
  }

  /** What the last frame adds to the person's history. */
  function NewLooks(frames: seq<Frame>, track: int): seq<Look>
    requires frames != []
  {
    var f := frames[|frames| - 1];
    LooksOf(f, RegistryRun(frames), Gone(RegistryRun(frames[..|frames| - 1]), f), track, |f.persons|)
  }

  /** The person was unseen for so long that its context is dropped with the last frame. */
  predicate Dropped(frames: seq<Frame>, track: int)
    requires frames != []
  {
    var h := HistoryOf(frames[..|frames| - 1], track);
    NewLooks(frames, track) == [] && h != [] && frames[|frames| - 1].ts - h[|h| - 1].ts > PERSON_TTL
  }

  /** The events published for the track since its context was created. */
  function Published(cfg: Config, frames: seq<Frame>, track: int): seq<AssocEvent> {
    if frames == [] || Dropped(frames, track) then []
    else Published(cfg, frames[..|frames| - 1], track) + OfTrack(EngineEvents(cfg, frames), track)
  }

  /** The last frame publishes for a track exactly what its new looks add to its history. */
  lemma LastFrameAdds(cfg: Config, frames: seq<Frame>, track: int)
    requires frames != []
    ensures OfTrack(EngineEvents(cfg, frames), track)
      == Added(Reports(cfg), HistoryOf(frames[..|frames| - 1], track), NewLooks(frames, track))
  {
    var before, f := frames[..|frames| - 1], frames[|frames| - 1];
    var h, more := HistoryOf(before, track), NewLooks(frames, track);
    PersonsIndependent(cfg, before, track);
    EngineRegistry(cfg, before);
    FrameEvents(cfg, EngineRun(cfg, before).persons, f, RegistryRun(frames), Gone(RegistryRun(before), f), track, h);
    OutputsAppend(Reports(cfg), h, more);
    SameRest(Outputs(Reports(cfg), h), OfTrack(EngineEvents(cfg, frames), track), Added(Reports(cfg), h, more));
  }

  lemma SameRest<T>(a: seq<T>, b: seq<T>, c: seq<T>)
    requires a + b == a + c
    ensures b == c
  {
    assert b == (a + b)[|a|..] && c == (a + c)[|a|..];
  }

  /** After any run, the events published for a track since its context was created are those of its own history. */
  lemma {:induction false} PublishedIsHistory(cfg: Config, frames: seq<Frame>, track: int)
    ensures Published(cfg, frames, track) == Outputs(Reports(cfg), HistoryOf(frames, track))
  {
    if frames != [] {
      PublishedIsHistory(cfg, frames[..|frames| - 1], track);
      LastFrameAdds(cfg, frames, track);
      OutputsAppend(Reports(cfg), HistoryOf(frames[..|frames| - 1], track), NewLooks(frames, track));
    }
  }

  // ----- zones

  lemma {:induction false} KindsOfOutputs(out: seq<Look> -> seq<AssocEvent>, h: seq<Look>, name: string)
    ensures KindsFor(Outputs(out, h), name) == Outputs(KindsOut(out, name), h)
  {
    if h != [] {
      KindsOfOutputs(out, h[..|h| - 1], name);
      KindsForConcat(Outputs(out, h[..|h| - 1]), out(h), name);
    }
  }

  /**
   After any run with unique zone names: the events published for a person and a zone alternate, starting with an enter,
   and tell whether the zone is active for the person.
   */
  lemma PublishedZonesAlternate(cfg: Config, frames: seq<Frame>, track: int, name: string)
    requires UniqueNames(cfg.zones)
    ensures var persons := EngineRun(cfg, frames).persons;
      Alternates(KindsFor(Published(cfg, frames, track), name), track in persons && name in persons[track].activeZones)
  {
    var h := HistoryOf(frames, track);
    PublishedIsHistory(cfg, frames, track);
    KindsOfOutputs(Reports(cfg), h, name);
    ZoneEventsAlternate(cfg, h, name);
    PersonsIndependent(cfg, frames, track);
    assert PersonRun(cfg, []).activeZones == {};
  }

  // ----- the other kinds

  lemma AddedByOne(out: seq<Look> -> seq<AssocEvent>, h: seq<Look>, l: Look)
    ensures Added(out, h, [l]) == out(h + [l])
  {
    assert [l][..0] == [];
    assert [] + out(h + [l]) == out(h + [l]);
  }

  /** The tracker reports the track once in the last frame. */
  predicate SeenOnce(frames: seq<Frame>, track: int)
    requires frames != []
  {
    |NewLooks(frames, track)| == 1
  }

  lemma HistoryGrows(frames: seq<Frame>, track: int)
    requires frames != [] && NewLooks(frames, track) != []
    ensures HistoryOf(frames, track) == HistoryOf(frames[..|frames| - 1], track) + NewLooks(frames, track) != []
  {
  }

  /** With one detection of the track in the frame, what is published for it are the events of its history's last look. */
  lemma SeenOnceEvents(cfg: Config, frames: seq<Frame>, track: int)
    requires frames != [] && SeenOnce(frames, track)
    ensures HistoryOf(frames, track) != []
    ensures OfTrack(EngineEvents(cfg, frames), track) == Reports(cfg)(HistoryOf(frames, track))
  {
    var more := NewLooks(frames, track);
    LastFrameAdds(cfg, frames, track);
    HistoryGrows(frames, track);
    assert more == [more[0]];
    AddedByOne(Reports(cfg), HistoryOf(frames[..|frames| - 1], track), more[0]);
  }

  /** The published kinds at the last look of a history. */
  predicate KindsAtEnd(cfg: Config, h: seq<Look>, events: seq<AssocEvent>) {
    var m := |h| - 1;
    && h != []
    && KindCount(events, ShelfApproach) == Once(NearShelf(cfg, h[m]) && (m == 0 || !NearShelf(cfg, h[m - 1])))
    && KindCount(events, ShelfInteraction) == Once(NearFor(cfg, h, m, if cfg.shelfFrames < 1 then 1 else cfg.shelfFrames))
    && KindCount(events, SpeedSpike) == Once(SpikeAtEnd(cfg.speed, Trail(h)))
  }

  lemma ReportsAt(cfg: Config, h: seq<Look>)
    requires h != []
    ensures Reports(cfg)(h) == EventsAt(cfg, h, |h| - 1)
  {
  }

  lemma EventsSpike(cfg: Config, h: seq<Look>)
    requires h != []
    ensures KindCount(EventsAt(cfg, h, |h| - 1), SpeedSpike) == Once(SpikeAtEnd(cfg.speed, Trail(h)))
  {
    SpikeEventsExact(cfg, h, |h| - 1);
    assert h[..|h|] == h;
  }

  lemma EventsKinds(cfg: Config, h: seq<Look>)
    requires h != []
    ensures KindsAtEnd(cfg, h, Reports(cfg)(h))
  {
    ReportsAt(cfg, h);
    ShelfEventsExact(cfg, h, |h| - 1);
    EventsSpike(cfg, h);
  }

  /**
   In every run, a frame that sees the track once publishes SHELF_APPROACH for it exactly at the first look of a run near
   an item, SHELF_INTERACTION exactly from the n-th on, and SPEED_SPIKE exactly when the trail ends in a spike.
   */
  lemma PublishedKinds(cfg: Config, frames: seq<Frame>, track: int)
    requires frames != [] && SeenOnce(frames, track)
    ensures KindsAtEnd(cfg, HistoryOf(frames, track), OfTrack(EngineEvents(cfg, frames), track))
  {
    SeenOnceEvents(cfg, frames, track);
    EventsKinds(cfg, HistoryOf(frames, track));
  }

  /** Likewise for a zone: one enter when the track has come in since its last look, one exit when it has gone out, else nothing. */
  lemma PublishedCrossings(cfg: Config, frames: seq<Frame>, track: int, name: string)
    requires frames != [] && SeenOnce(frames, track) && UniqueNames(cfg.zones)
    ensures var h := HistoryOf(frames, track);
      && h != []
      && var now, before := InZone(cfg.zones, h[|h| - 1].person.bbox, name), WasInZone(cfg, h, name);
      KindsFor(OfTrack(EngineEvents(cfg, frames), track), name)
      == if now && !before then [ZoneEnter] else if before && !now then [ZoneExit] else []
  {
    SeenOnceEvents(cfg, frames, track);
    ZoneKindsAtEnd(cfg, HistoryOf(frames, track), name);
  }

  // ----- what every event carries

  /** The order in which an update reports. */
  function Rank(kind: AssocType): nat {
    match kind
    case ZoneEnter => 0
    case ZoneExit => 0
    case ShelfApproach => 1
    case ShelfInteraction => 2
    case ItemPickup => 3
    case SpeedSpike => 4
    case _ => 5
  }

  /** The event carries camera, track and time; an item if it is a pickup, a zone if it is about one. */
  predicate Stamped(e: AssocEvent, camera: string, track: int, ts: real) {
    && e.cameraId == camera && e.track == track && e.timestamp == ts
    && (e.item.Some? <==> e.kind == ItemPickup) && (e.zone.Some? <==> e.kind == ZoneEnter || e.kind == ZoneExit)
  }

  /** All are stamped, and they come in the order of their kinds, from `lo` to `hi`. */
  predicate AllStamped(events: seq<AssocEvent>, camera: string, track: int, ts: real, lo: nat, hi: nat) {
    && (forall i :: 0 <= i < |events| ==> Stamped(events[i], camera, track, ts) && lo <= Rank(events[i].kind) <= hi)
    && (forall i, j :: 0 <= i < j < |events| ==> Rank(events[i].kind) <= Rank(events[j].kind))
  }

  lemma StampedConcat(a: seq<AssocEvent>, b: seq<AssocEvent>, camera: string, track: int, ts: real, lo: nat, mid: nat, hi: nat)
    requires AllStamped(a, camera, track, ts, lo, mid) && AllStamped(b, camera, track, ts, mid, hi) && lo <= mid <= hi
    ensures AllStamped(a + b, camera, track, ts, lo, hi)
  {
  }

  lemma {:induction false} ZonesStamped(cfg: Config, zones: seq<Zone>, active: set<string>, track: int, bbox: BBox, ts: real)
    ensures AllStamped(ZoneEvents(cfg, zones, active, track, bbox, ts), cfg.camera, track, ts, 0, 0)
  {
    if zones != [] { ZonesStamped(cfg, zones[..|zones| - 1], active, track, bbox, ts); }
  }

  lemma PickupsStamped(cfg: Config, ids: seq<int>, track: int, ts: real)
    ensures AllStamped(PickupEvents(cfg, ids, track, ts), cfg.camera, track, ts, 3, 3)
  {
    PickupsArePickups(cfg, ids, track, ts);
  }

  lemma ShelfStamped(cfg: Config, count: nat, track: int, ts: real)
    ensures AllStamped(ShelfEvents(cfg, count, track, ts), cfg.camera, track, ts, 1, 2)
  {
  }

  /** An update reports zones, shelf, pickups and spike in this order, of its own person and at its own time. */
  lemma UpdateStamped(cfg: Config, st: PersonState, l: Look)
    ensures AllStamped(Events(cfg, st, l), cfg.camera, l.person.track, l.ts, 0, 4)
  {
    var p, count := l.person, StateAfter(cfg, st, l).framesNearShelf;
    var zone := ZoneEvents(cfg, cfg.zones, st.activeZones, p.track, p.bbox, l.ts);
    var shelf, spikes := ShelfEvents(cfg, count, p.track, l.ts), SpikeEvents(cfg, st.motion, p.track, p.bbox, l.ts);
    var pickups := PickupEvents(cfg, PickedUp(cfg, l.registry, p.bbox, cfg.order(l.gone), l.ts), p.track, l.ts);
    ZonesStamped(cfg, cfg.zones, st.activeZones, p.track, p.bbox, l.ts);
    ShelfStamped(cfg, count, p.track, l.ts);
    PickupsStamped(cfg, PickedUp(cfg, l.registry, p.bbox, cfg.order(l.gone), l.ts), p.track, l.ts);
    FourStamped(zone, shelf, pickups, spikes, cfg.camera, p.track, l.ts);
  }

  lemma FourStamped(zone: seq<AssocEvent>, shelf: seq<AssocEvent>, pickups: seq<AssocEvent>, spikes: seq<AssocEvent>,
                    camera: string, track: int, ts: real)
    requires AllStamped(zone, camera, track, ts, 0, 0) && AllStamped(shelf, camera, track, ts, 1, 2)
    requires AllStamped(pickups, camera, track, ts, 3, 3) && AllStamped(spikes, camera, track, ts, 4, 4)
    ensures AllStamped(zone + shelf + pickups + spikes, camera, track, ts, 0, 4)
  {
    StampedUpTo(zone, camera, track, ts, 0, 0, 1);
    StampedConcat(zone, shelf, camera, track, ts, 0, 1, 2);
    StampedUpTo(zone + shelf, camera, track, ts, 0, 2, 3);
    StampedConcat(zone + shelf, pickups, camera, track, ts, 0, 3, 3);
    StampedUpTo(zone + shelf + pickups, camera, track, ts, 0, 3, 4);
    StampedConcat(zone + shelf + pickups, spikes, camera, track, ts, 0, 4, 4);
  }

  lemma StampedUpTo(events: seq<AssocEvent>, camera: string, track: int, ts: real, lo: nat, hi: nat, higher: nat)
    requires AllStamped(events, camera, track, ts, lo, hi) && hi <= higher
    ensures AllStamped(events, camera, track, ts, lo, higher)
  {
  }

  lemma StampedHere(cfg: Config, st: PersonState, l: Look, e: AssocEvent)
    requires e in Events(cfg, st, l)
    ensures Stamped(e, cfg.camera, l.person.track, l.ts)
  {
    UpdateStamped(cfg, st, l);
    var i :| 0 <= i < |Events(cfg, st, l)| && Events(cfg, st, l)[i] == e;
  }

  lemma StampedLastOrBefore(cfg: Config, persons: map<int, PersonState>, f: Frame, registry: map<int, Sighting>,
                            gone: set<int>, n: nat, e: AssocEvent)
    requires 0 < n <= |f.persons| && e in EventsAfter(cfg, persons, f, registry, gone, n)
    ensures e in EventsAfter(cfg, persons, f, registry, gone, n - 1) || Stamped(e, cfg.camera, f.persons[n - 1].track, f.ts)
  {
    var l := Look(f.persons[n - 1], f.items, registry, gone, f.ts);
    var st := PersonOf(PersonsAfter(cfg, persons, f, n - 1), l.person.track);
    EventsAfterNext(cfg, persons, f, registry, gone, n);
    if e in Events(cfg, st, l) { StampedHere(cfg, st, l, e); }
  }

  /** Every event of a frame carries its camera and time, and a track that the frame shows. */
  lemma {:induction false} FrameStamped(cfg: Config, persons: map<int, PersonState>, f: Frame, registry: map<int, Sighting>,
                                        gone: set<int>, n: nat, e: AssocEvent)
    requires n <= |f.persons| && e in EventsAfter(cfg, persons, f, registry, gone, n)
    ensures Stamped(e, cfg.camera, e.track, f.ts) && Present(f.persons, e.track)
  {
    if n > 0 {
      StampedLastOrBefore(cfg, persons, f, registry, gone, n, e);
      if e in EventsAfter(cfg, persons, f, registry, gone, n - 1) {
        FrameStamped(cfg, persons, f, registry, gone, n - 1, e);
      }
    }
  }

  /** In every run. */
  lemma PublishedStamped(cfg: Config, frames: seq<Frame>, e: AssocEvent)
    requires frames != [] && e in EngineEvents(cfg, frames)
    ensures var f := frames[|frames| - 1]; Stamped(e, cfg.camera, e.track, f.ts) && Present(f.persons, e.track)
  {
    var before, f := EngineRun(cfg, frames[..|frames| - 1]), frames[|frames| - 1];
    FrameStamped(cfg, before.persons, f, RegistryAfter(before.registry, f), Gone(before.registry, f), |f.persons|, e);
  }

  // ----- pickups

  function PickupOf(cfg: Config, track: int, item: int, ts: real): AssocEvent {
    Event(cfg, track, ItemPickup, Some(item), None, ts)
  }

  lemma PickupIn(cfg: Config, ids: seq<int>, owner: int, ts: real, track: int, item: int)
    ensures PickupOf(cfg, track, item, ts) in PickupEvents(cfg, ids, owner, ts) <==> owner == track && item in ids
  {
    var events := PickupEvents(cfg, ids, owner, ts);
    PickupsArePickups(cfg, ids, owner, ts);
    if item in ids {
      var i :| 0 <= i < |ids| && ids[i] == item;
      assert events[i] == PickupOf(cfg, owner, item, ts);
    }
    if PickupOf(cfg, track, item, ts) in events {
      var i :| 0 <= i < |events| && events[i] == PickupOf(cfg, track, item, ts);
      assert ids[i] in ids;
    }
  }

  lemma NoPickup(events: seq<AssocEvent>, e: AssocEvent)
    requires e.kind == ItemPickup && forall i :: 0 <= i < |events| ==> events[i].kind != ItemPickup
    ensures e !in events
  {
  }

  /** An update publishes a pickup exactly of the items that the person picked up. */
  lemma UpdatePickups(cfg: Config, st: PersonState, l: Look, track: int, item: int)
    ensures PickupOf(cfg, track, item, l.ts) in Events(cfg, st, l)
      <==> l.person.track == track && item in PickedUp(cfg, l.registry, l.person.bbox, cfg.order(l.gone), l.ts)
  {
    var p, count := l.person, StateAfter(cfg, st, l).framesNearShelf;
    var ids, e := PickedUp(cfg, l.registry, p.bbox, cfg.order(l.gone), l.ts), PickupOf(cfg, track, item, l.ts);
    var zone := ZoneEvents(cfg, cfg.zones, st.activeZones, p.track, p.bbox, l.ts);
    var shelf, spikes := ShelfEvents(cfg, count, p.track, l.ts), SpikeEvents(cfg, st.motion, p.track, p.bbox, l.ts);
    ZoneEventKinds(cfg, cfg.zones, st.activeZones, p.track, p.bbox, l.ts);
    ShelfKinds(cfg, count, p.track, l.ts);
    SpikeKinds(cfg, st.motion, p.track, p.bbox, l.ts);
    NoPickup(zone, e);
    NoPickup(shelf, e);
    NoPickup(spikes, e);
    PickupIn(cfg, ids, p.track, l.ts, track, item);
    assert Events(cfg, st, l) == zone + shelf + PickupEvents(cfg, ids, p.track, l.ts) + spikes;
  }

  /** Some of the first `n` persons is the track and picked the item up. */
  predicate PickedBy(cfg: Config, f: Frame, registry: map<int, Sighting>, gone: set<int>, n: nat, track: int, item: int)
    requires n <= |f.persons|
  {
    exists i :: 0 <= i < n && f.persons[i].track == track
      && item in PickedUp(cfg, registry, f.persons[i].bbox, cfg.order(gone), f.ts)
  }

  lemma PickupsNext(cfg: Config, persons: map<int, PersonState>, f: Frame, registry: map<int, Sighting>, gone: set<int>,
                    n: nat, track: int, item: int)
    requires 0 < n <= |f.persons|
    ensures PickupOf(cfg, track, item, f.ts) in EventsAfter(cfg, persons, f, registry, gone, n) <==>
      PickupOf(cfg, track, item, f.ts) in EventsAfter(cfg, persons, f, registry, gone, n - 1)
      || (f.persons[n - 1].track == track && item in PickedUp(cfg, registry, f.persons[n - 1].bbox, cfg.order(gone), f.ts))
  {
    var l := Look(f.persons[n - 1], f.items, registry, gone, f.ts);
    EventsAfterNext(cfg, persons, f, registry, gone, n);
    UpdatePickups(cfg, PersonOf(PersonsAfter(cfg, persons, f, n - 1), l.person.track), l, track, item);
  }

  lemma {:induction false} FramePickups(cfg: Config, persons: map<int, PersonState>, f: Frame,
                                        registry: map<int, Sighting>, gone: set<int>, n: nat, track: int, item: int)
    requires n <= |f.persons|
    ensures PickupOf(cfg, track, item, f.ts) in EventsAfter(cfg, persons, f, registry, gone, n)
      <==> PickedBy(cfg, f, registry, gone, n, track, item)
  {
    if n > 0 {
      FramePickups(cfg, persons, f, registry, gone, n - 1, track, item);
      PickupsNext(cfg, persons, f, registry, gone, n, track, item);
      PickedByNext(cfg, f, registry, gone, n, track, item);
    }
  }

  lemma PickedByNext(cfg: Config, f: Frame, registry: map<int, Sighting>, gone: set<int>, n: nat, track: int, item: int)
    requires 0 < n <= |f.persons|
    ensures PickedBy(cfg, f, registry, gone, n, track, item) <==>
      PickedBy(cfg, f, registry, gone, n - 1, track, item)
      || (f.persons[n - 1].track == track && item in PickedUp(cfg, registry, f.persons[n - 1].bbox, cfg.order(gone), f.ts))
  {
  }

  /**
   In every run with non-decreasing timestamps a frame publishes ITEM_PICKUP of an item for a track exactly when the track is
   in the frame and the item vanished into its box: it is absent now and was last detected, in the whole history, less
   than 1.5 s ago inside that box.
   */
  lemma PublishedPickups(cfg: Config, frames: seq<Frame>, track: int, item: int)
    requires frames != [] && FramesInOrder(frames) && LawfulOrder(cfg.order)
    ensures var f := frames[|frames| - 1];
      PickupOf(cfg, track, item, f.ts) in EngineEvents(cfg, frames)
      <==> exists i :: 0 <= i < |f.persons| && f.persons[i].track == track && VanishedInto(cfg, frames, f.persons[i].bbox, item)
  {
    var before, f := frames[..|frames| - 1], frames[|frames| - 1];
    var registry, gone := RegistryRun(frames), Gone(RegistryRun(before), f);
    EngineRegistry(cfg, before);
    FramePickups(cfg, EngineRun(cfg, before).persons, f, registry, gone, |f.persons|, track, item);
    forall i | 0 <= i < |f.persons|
      ensures item in PickedUp(cfg, registry, f.persons[i].bbox, cfg.order(gone), f.ts)
        <==> VanishedInto(cfg, frames, f.persons[i].bbox, item)
    {
      PickupExact(cfg, frames, f.persons[i].bbox, item);
    }
  }

  /**
   As deployed: a frame publishes ITEM_PICKUP of an item for a track exactly when the track is in the frame, the item is not, and
   the item was last detected less than 1.5 s ago with at least 30% of its box in the track's box of now.
   */
  lemma DeployedPickups(camera: string, zones: seq<Zone>, order: set<int> -> seq<int>, distance: (BBox, BBox) -> real,
                        frames: seq<Frame>, track: int, item: int)
    requires frames != [] && FramesInOrder(frames) && LawfulOrder(order)
    ensures var cfg, f := Deployed(camera, zones, order, distance), frames[|frames| - 1];
      var seen := LastSeen(frames[..|frames| - 1], item);
      AssocEvent(camera, track, ItemPickup, Some(item), None, f.ts) in EngineEvents(cfg, frames) <==>
        && (forall it :: it in f.items ==> it.item != item)
        && seen.Some? && f.ts - seen.value.ts < 1.5
        && exists i :: 0 <= i < |f.persons| && f.persons[i].track == track && HasShareIn(f.persons[i].bbox, seen.value.bbox, 0.3)
  {
    var cfg, f := Deployed(camera, zones, order, distance), frames[|frames| - 1];
    PublishedPickups(cfg, frames, track, item);
    forall i | 0 <= i < |f.persons|
      ensures var seen := LastSeen(frames[..|frames| - 1], item);
        VanishedInto(cfg, frames, f.persons[i].bbox, item) <==>
          && (forall it :: it in f.items ==> it.item != item)
          && seen.Some? && f.ts - seen.value.ts < 1.5 && HasShareIn(f.persons[i].bbox, seen.value.bbox, 0.3)
    {
      DeployedInside(camera, zones, order, distance, frames, f.persons[i].bbox, item);
    }
  }

  lemma PickupEventShape(cfg: Config, ids: seq<int>, owner: int, ts: real, e: AssocEvent)
    requires e in PickupEvents(cfg, ids, owner, ts)
    ensures e.item.Some? && e == PickupOf(cfg, owner, e.item.value, ts)
  {
    PickupsArePickups(cfg, ids, owner, ts);
    var i :| 0 <= i < |PickupEvents(cfg, ids, owner, ts)| && PickupEvents(cfg, ids, owner, ts)[i] == e;
  }

  lemma UpdatePickupShape(cfg: Config, st: PersonState, l: Look, e: AssocEvent)
    requires e in Events(cfg, st, l) && e.kind == ItemPickup
    ensures e.item.Some? && e == PickupOf(cfg, l.person.track, e.item.value, l.ts)
  {
    var p, count := l.person, StateAfter(cfg, st, l).framesNearShelf;
    var ids := PickedUp(cfg, l.registry, p.bbox, cfg.order(l.gone), l.ts);
    var zone := ZoneEvents(cfg, cfg.zones, st.activeZones, p.track, p.bbox, l.ts);
    var shelf, spikes := ShelfEvents(cfg, count, p.track, l.ts), SpikeEvents(cfg, st.motion, p.track, p.bbox, l.ts);
    ZoneEventKinds(cfg, cfg.zones, st.activeZones, p.track, p.bbox, l.ts);
    ShelfKinds(cfg, count, p.track, l.ts);
    SpikeKinds(cfg, st.motion, p.track, p.bbox, l.ts);
    NoPickup(zone, e);
    NoPickup(shelf, e);
    NoPickup(spikes, e);
    assert Events(cfg, st, l) == zone + shelf + PickupEvents(cfg, ids, p.track, l.ts) + spikes;
    PickupEventShape(cfg, ids, p.track, l.ts, e);
  }

  lemma InLastOrBefore(cfg: Config, persons: map<int, PersonState>, f: Frame, registry: map<int, Sighting>,
                       gone: set<int>, n: nat, e: AssocEvent)
    requires 0 < n <= |f.persons| && e in EventsAfter(cfg, persons, f, registry, gone, n) && e.kind == ItemPickup
    ensures e in EventsAfter(cfg, persons, f, registry, gone, n - 1)
      || (e.item.Some? && e == PickupOf(cfg, f.persons[n - 1].track, e.item.value, f.ts))
  {
    var l := Look(f.persons[n - 1], f.items, registry, gone, f.ts);
    var st := PersonOf(PersonsAfter(cfg, persons, f, n - 1), l.person.track);
    EventsAfterNext(cfg, persons, f, registry, gone, n);
    if e in Events(cfg, st, l) { UpdatePickupShape(cfg, st, l, e); }
  }

  lemma {:induction false} FramePickupShape(cfg: Config, persons: map<int, PersonState>, f: Frame,
                                            registry: map<int, Sighting>, gone: set<int>, n: nat, e: AssocEvent)
    requires n <= |f.persons| && e in EventsAfter(cfg, persons, f, registry, gone, n) && e.kind == ItemPickup
    ensures e.item.Some? && e == PickupOf(cfg, e.track, e.item.value, f.ts)
  {
    if n > 0 {
      InLastOrBefore(cfg, persons, f, registry, gone, n, e);
      if e in EventsAfter(cfg, persons, f, registry, gone, n - 1) {
        FramePickupShape(cfg, persons, f, registry, gone, n - 1, e);
      }
    }
  }

  /** A published pickup names an item that vanished into the box of its track. */
  lemma PublishedPickupVanished(cfg: Config, frames: seq<Frame>, e: AssocEvent)
    requires frames != [] && FramesInOrder(frames) && LawfulOrder(cfg.order)
    requires e in EngineEvents(cfg, frames) && e.kind == ItemPickup
    ensures e.item.Some?
    ensures var f := frames[|frames| - 1];
      exists i :: 0 <= i < |f.persons| && f.persons[i].track == e.track && VanishedInto(cfg, frames, f.persons[i].bbox, e.item.value)
  {
    var before, f := frames[..|frames| - 1], frames[|frames| - 1];
    FramePickupShape(cfg, EngineRun(cfg, before).persons, f, RegistryAfter(EngineRun(cfg, before).registry, f),
                     Gone(EngineRun(cfg, before).registry, f), |f.persons|, e);
    PublishedPickups(cfg, frames, e.track, e.item.value);
  }
}
