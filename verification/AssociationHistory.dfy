/** What `AssociationEngine` reports, in terms of the whole history of frames. */
module AssociationHistory {
  import opened Common
  import opened Types
  import opened SpeedSpikes
  import opened Boxes
  import opened Association

  predicate FramesInOrder(frames: seq<Frame>) {
    forall i, j :: 0 <= i <= j < |frames| ==> frames[i].ts <= frames[j].ts
  }

  // ----- the item registry, pruned and unpruned

  function RegistryRun(frames: seq<Frame>): map<int, Sighting> {
    if frames == [] then map[] else RegistryAfter(RegistryRun(frames[..|frames| - 1]), frames[|frames| - 1])
  }

  /** The box of the item in this frame; of several detections with its id, the last counts. */
  function BoxIn(items: seq<ItemDetection>, id: int): Option<BBox> {
    if items == [] then None
    else if items[|items| - 1].item == id then Some(items[|items| - 1].bbox)
    else BoxIn(items[..|items| - 1], id)
  }

  /** Where and when the item was last detected in the whole history. */
  function LastSeen(frames: seq<Frame>, id: int): Option<Sighting> {
    if frames == [] then None
    else
      var f := frames[|frames| - 1];
      match BoxIn(f.items, id)
      case Some(box) => Some(Sighting(box, f.ts))
      case None => LastSeen(frames[..|frames| - 1], id)
  }

  lemma {:induction false} RegisterLooksUp(registry: map<int, Sighting>, items: seq<ItemDetection>, ts: real, id: int)
    ensures id in IdsOf(items) <==> BoxIn(items, id).Some?
    ensures var r := Register(registry, items, ts);
      match BoxIn(items, id)
      case Some(box) => id in r && r[id] == Sighting(box, ts)
      case None => (id in r <==> id in registry) && (id in r ==> r[id] == registry[id])
  {
    if items != [] {
      var init, last := items[..|items| - 1], items[|items| - 1];
      RegisterLooksUp(registry, init, ts, id);
      assert items == init + [last];
      assert id in IdsOf(items) <==> id in IdsOf(init) || last.item == id by {
        if id in IdsOf(init) { var it :| it in init && it.item == id; assert it in items; }
        if last.item == id { assert last in items; }
      }
    }
  }

  /** The registry holds exactly the items last seen less than two seconds before the last frame, as last seen. */
  predicate RegistryHolds(frames: seq<Frame>, id: int)
    requires frames != []
  {
    var r, seen := RegistryRun(frames), LastSeen(frames, id);
    && (id in r <==> seen.Some? && frames[|frames| - 1].ts - seen.value.ts < ITEM_TTL)
    && (id in r ==> r[id] == seen.value)
    && (seen.Some? ==> seen.value.ts <= frames[|frames| - 1].ts)
  }

  lemma {:induction false} RegistryExact(frames: seq<Frame>, id: int)
    requires frames != [] && FramesInOrder(frames)
    ensures RegistryHolds(frames, id)
  {
    var before, f := frames[..|frames| - 1], frames[|frames| - 1];
    RegisterLooksUp(RegistryRun(before), f.items, f.ts, id);
    if before != [] {
      RegistryExact(before, id);
      assert before[|before| - 1].ts <= f.ts;
    }
  }

  lemma {:induction false} PickedUpExact(cfg: Config, registry: map<int, Sighting>, bbox: BBox, ids: seq<int>, ts: real)
    ensures forall id :: id in PickedUp(cfg, registry, bbox, ids, ts) <==> id in ids && PicksUp(cfg, registry, bbox, id, ts)
  {
    if ids != [] {
      var init, last := ids[..|ids| - 1], ids[|ids| - 1];
      PickedUpExact(cfg, registry, bbox, init, ts);
      assert ids == init + [last];
    }
  }

  /** What the whole history says about an item that a person may just have picked up. */
  predicate VanishedInto(cfg: Config, frames: seq<Frame>, bbox: BBox, id: int)
    requires frames != []
  {
    var f, seen := frames[|frames| - 1], LastSeen(frames[..|frames| - 1], id);
    && id !in IdsOf(f.items)
    && seen.Some? && f.ts - seen.value.ts < PICKUP_WINDOW
    && cfg.inside(bbox, seen.value.bbox)
  }

  /**
   As deployed: the item is absent now, was last detected less than 1.5 s ago, and the rectangle in which its box then met
   the person's had at least 30% of the area of its box.
   */
  lemma DeployedInside(camera: string, zones: seq<Zone>, order: set<int> -> seq<int>, distance: (BBox, BBox) -> real,
                       frames: seq<Frame>, bbox: BBox, id: int)
    requires frames != []
    ensures var f, seen := frames[|frames| - 1], LastSeen(frames[..|frames| - 1], id);
      VanishedInto(Deployed(camera, zones, order, distance), frames, bbox, id) <==>
        && (forall it :: it in f.items ==> it.item != id)
        && seen.Some? && f.ts - seen.value.ts < 1.5 && HasShareIn(bbox, seen.value.bbox, 0.3)
  {
    var seen := LastSeen(frames[..|frames| - 1], id);
    if seen.Some? { OverlapsIffShare(bbox, seen.value.bbox, 0.3); }
  }

  /**
   Pruning the registry is invisible: for non-decreasing timestamps a person picks up exactly the items that are absent
   now, were last detected -- in the whole history -- less than 1.5 s ago, and then lay in the person's box by 30%.
   */
  lemma PickupExact(cfg: Config, frames: seq<Frame>, bbox: BBox, id: int)
    requires frames != [] && FramesInOrder(frames) && LawfulOrder(cfg.order)
    ensures var before, f := RegistryRun(frames[..|frames| - 1]), frames[|frames| - 1];
      id in PickedUp(cfg, RegistryAfter(before, f), bbox, cfg.order(Gone(before, f)), f.ts) <==> VanishedInto(cfg, frames, bbox, id)
  {
    var earlier, f := frames[..|frames| - 1], frames[|frames| - 1];
    var before := RegistryRun(earlier);
    var gone := Gone(before, f);
    assert Enumerates(cfg.order(gone), gone);
    PickedUpExact(cfg, RegistryAfter(before, f), bbox, cfg.order(gone), f.ts);
    RegisterLooksUp(before, f.items, f.ts, id);
    if earlier != [] {
      RegistryExact(earlier, id);
      assert earlier[|earlier| - 1].ts <= f.ts;
    }
  }

  // ----- one person

  /** What `_update_person` is given for one person in one frame. */
  datatype Look = Look(person: PersonDetection, items: seq<ItemDetection>, registry: map<int, Sighting>, gone: set<int>, ts: real)

  function StateAfter(cfg: Config, st: PersonState, l: Look): PersonState {
    NextState(cfg, st, l.person, l.items, l.ts)
  }

  function Events(cfg: Config, st: PersonState, l: Look): seq<AssocEvent> {
    EventsFor(cfg, st, l.person, l.items, l.registry, l.gone, l.ts)
  }

  function PersonRun(cfg: Config, h: seq<Look>): PersonState {
    if h == [] then NEW_PERSON else StateAfter(cfg, PersonRun(cfg, h[..|h| - 1]), h[|h| - 1])
  }

  /** The events of look `i`. */
  function EventsAt(cfg: Config, h: seq<Look>, i: nat): seq<AssocEvent>
    requires i < |h|
  {
    Events(cfg, PersonRun(cfg, h[..i]), h[i])
  }

  predicate UniqueNames(zones: seq<Zone>) {
    forall i, j :: 0 <= i < j < |zones| ==> zones[i].name != zones[j].name
  }

  /** The kinds of the events about a zone, in order. */
  function KindsFor(events: seq<AssocEvent>, name: string): seq<AssocType> {
    if events == [] then []
    else
      var e := events[|events| - 1];
      KindsFor(events[..|events| - 1], name) + (if e.zone == Some(name) then [e.kind] else [])
  }

  lemma {:induction false} KindsForConcat(a: seq<AssocEvent>, b: seq<AssocEvent>, name: string)
    ensures KindsFor(a + b, name) == KindsFor(a, name) + KindsFor(b, name)
  {
    if b == [] {
      assert a + b == a;
    } else {
      var init, last := b[..|b| - 1], b[|b| - 1];
      assert (a + b)[..|a + b| - 1] == a + init;
      KindsForConcat(a, init, name);
      Regroup(KindsFor(a, name), KindsFor(init, name), if last.zone == Some(name) then [last.kind] else []);
    }
  }

  lemma {:induction false} NoZoneNoKinds(events: seq<AssocEvent>, name: string)
    requires forall i :: 0 <= i < |events| ==> events[i].zone == None
    ensures KindsFor(events, name) == []
  {
    if events != [] { NoZoneNoKinds(events[..|events| - 1], name); }
  }

  /** What one update says about a zone: it was entered, left, or nothing. */
  function Crossing(wasIn: bool, isIn: bool): seq<AssocType> {
    if isIn && !wasIn then [ZoneEnter] else if wasIn && !isIn then [ZoneExit] else []
  }

  predicate Named(zones: seq<Zone>, name: string) { exists i :: 0 <= i < |zones| && zones[i].name == name }

  lemma NamedSnoc(zones: seq<Zone>, name: string)
    requires zones != []
    ensures Named(zones, name) <==> Named(zones[..|zones| - 1], name) || zones[|zones| - 1].name == name
    ensures UniqueNames(zones) && zones[|zones| - 1].name == name ==> !Named(zones[..|zones| - 1], name)
  {
    var init := zones[..|zones| - 1];
    if Named(init, name) {
      var i :| 0 <= i < |init| && init[i].name == name;
      assert zones[i].name == name;
    }
  }

  lemma {:induction false} ZonesAtNamed(zones: seq<Zone>, bbox: BBox, name: string)
    ensures name in ZonesAt(zones, bbox) ==> Named(zones, name)
  {
    if zones != [] {
      ZonesAtNamed(zones[..|zones| - 1], bbox, name);
      NamedSnoc(zones, name);
    }
  }

  lemma OneZoneCrossing(cfg: Config, z: Zone, active: set<string>, track: int, bbox: BBox, ts: real, name: string)
    ensures KindsFor(ZoneEvent(cfg, z, active, track, bbox, ts), name)
      == if z.name == name then Crossing(name in active, z.contains(bbox)) else []
  {
    assert KindsFor([], name) == [];
  }

  lemma {:induction false} ZoneCrossing(cfg: Config, zones: seq<Zone>, active: set<string>, track: int, bbox: BBox,
                                        ts: real, name: string)
    requires UniqueNames(zones)
    ensures KindsFor(ZoneEvents(cfg, zones, active, track, bbox, ts), name)
      == if Named(zones, name) then Crossing(name in active, name in ZonesAt(zones, bbox)) else []
  {
    if zones != [] {
      var init, z := zones[..|zones| - 1], zones[|zones| - 1];
      var events, event := ZoneEvents(cfg, init, active, track, bbox, ts), ZoneEvent(cfg, z, active, track, bbox, ts);
      ZoneCrossing(cfg, init, active, track, bbox, ts, name);
      OneZoneCrossing(cfg, z, active, track, bbox, ts, name);
      KindsForConcat(events, event, name);
      NamedSnoc(zones, name);
      ZonesAtNamed(init, bbox, name);
    }
  }

  lemma {:induction false} PickupsArePickups(cfg: Config, ids: seq<int>, track: int, ts: real)
    ensures |PickupEvents(cfg, ids, track, ts)| == |ids|
    ensures forall i :: 0 <= i < |ids| ==> PickupEvents(cfg, ids, track, ts)[i] == Event(cfg, track, ItemPickup, Some(ids[i]), None, ts)
  {
    if ids != [] { PickupsArePickups(cfg, ids[..|ids| - 1], track, ts); }
  }

  lemma PickupsNameNoZone(cfg: Config, ids: seq<int>, track: int, ts: real, name: string)
    ensures KindsFor(PickupEvents(cfg, ids, track, ts), name) == []
  {
    PickupsArePickups(cfg, ids, track, ts);
    NoZoneNoKinds(PickupEvents(cfg, ids, track, ts), name);
  }

  lemma ShelfNamesNoZone(cfg: Config, count: nat, track: int, ts: real, name: string)
    ensures KindsFor(ShelfEvents(cfg, count, track, ts), name) == []
  {
    NoZoneNoKinds(ShelfEvents(cfg, count, track, ts), name);
  }

  lemma SpikeNamesNoZone(cfg: Config, m: Motion, track: int, bbox: BBox, ts: real, name: string)
    ensures KindsFor(SpikeEvents(cfg, m, track, bbox, ts), name) == []
  {
    NoZoneNoKinds(SpikeEvents(cfg, m, track, bbox, ts), name);
  }

  lemma OnlyZonesCount(
      zone: seq<AssocEvent>, shelf: seq<AssocEvent>, pickups: seq<AssocEvent>, spikes: seq<AssocEvent>, name: string)
    requires KindsFor(shelf, name) == [] && KindsFor(pickups, name) == [] && KindsFor(spikes, name) == []
    ensures KindsFor(zone + shelf + pickups + spikes, name) == KindsFor(zone, name)
  {
    KindsForConcat(zone + shelf + pickups, spikes, name);
    KindsForConcat(zone + shelf, pickups, name);
    KindsForConcat(zone, shelf, name);
  }

  lemma UpdateCrossing(cfg: Config, st: PersonState, l: Look, name: string)
    requires UniqueNames(cfg.zones) && (name in st.activeZones ==> Named(cfg.zones, name))
    ensures KindsFor(Events(cfg, st, l), name) == Crossing(name in st.activeZones, name in StateAfter(cfg, st, l).activeZones)
    ensures name in StateAfter(cfg, st, l).activeZones ==> Named(cfg.zones, name)
  {
    var count, p := StateAfter(cfg, st, l).framesNearShelf, l.person;
    var ids := PickedUp(cfg, l.registry, p.bbox, cfg.order(l.gone), l.ts);
    ZoneCrossing(cfg, cfg.zones, st.activeZones, p.track, p.bbox, l.ts, name);
    ZonesAtNamed(cfg.zones, p.bbox, name);
    ShelfNamesNoZone(cfg, count, p.track, l.ts, name);
    PickupsNameNoZone(cfg, ids, p.track, l.ts, name);
    SpikeNamesNoZone(cfg, st.motion, p.track, p.bbox, l.ts, name);
    OnlyZonesCount(ZoneEvents(cfg, cfg.zones, st.activeZones, p.track, p.bbox, l.ts),
                   ShelfEvents(cfg, count, p.track, l.ts), PickupEvents(cfg, ids, p.track, l.ts),
                   SpikeEvents(cfg, st.motion, p.track, p.bbox, l.ts), name);
  }

  /** What a person's update reports at the end of its history. */
  function Reports(cfg: Config): seq<Look> -> seq<AssocEvent> {
    h => if h == [] then [] else EventsAt(cfg, h, |h| - 1)
  }

  function KindsOut(out: seq<Look> -> seq<AssocEvent>, name: string): seq<Look> -> seq<AssocType> {
    h => KindsFor(out(h), name)
  }

  /** Everything the context's events say about a zone. */
  function ZoneTrace(cfg: Config, h: seq<Look>, name: string): seq<AssocType> {
    Outputs(KindsOut(Reports(cfg), name), h)
  }

  lemma LastZoneKinds(cfg: Config, h: seq<Look>, name: string)
    requires h != []
    ensures KindsOut(Reports(cfg), name)(h) == KindsFor(Events(cfg, PersonRun(cfg, h[..|h| - 1]), h[|h| - 1]), name)
  {
  }

  /** Enter, exit, enter, ...; the last one tells whether the person is inside. */
  predicate Alternates(trace: seq<AssocType>, inside: bool) {
    && (forall i :: 0 <= i < |trace| ==> trace[i] == if i % 2 == 0 then ZoneEnter else ZoneExit)
    && (inside <==> |trace| % 2 == 1)
  }

  lemma CrossingAlternates(trace: seq<AssocType>, wasIn: bool, isIn: bool)
    requires Alternates(trace, wasIn)
    ensures Alternates(trace + Crossing(wasIn, isIn), isIn)
  {
  }

  /**
   With unique zone names, the events about a zone alternate, starting with an enter, and the active zones are exactly
   those entered and not left.
   */
  lemma {:induction false} ZoneEventsAlternate(cfg: Config, h: seq<Look>, name: string)
    requires UniqueNames(cfg.zones)
    ensures Alternates(ZoneTrace(cfg, h, name), name in PersonRun(cfg, h).activeZones)
    ensures name in PersonRun(cfg, h).activeZones ==> Named(cfg.zones, name)
  {
    if h != [] {
      var h0, l := h[..|h| - 1], h[|h| - 1];
      var st := PersonRun(cfg, h0);
      ZoneEventsAlternate(cfg, h0, name);
      UpdateCrossing(cfg, st, l, name);
      LastZoneKinds(cfg, h, name);
      CrossingAlternates(ZoneTrace(cfg, h0, name), name in st.activeZones, name in StateAfter(cfg, st, l).activeZones);
    }
  }

  /** The active zones are those that contain the person's last box. */
  lemma ActiveZonesContain(cfg: Config, h: seq<Look>, name: string)
    requires h != []
    ensures name in PersonRun(cfg, h).activeZones <==> InZone(cfg.zones, h[|h| - 1].person.bbox, name)
  {
    ZonesAtExact(cfg.zones, h[|h| - 1].person.bbox, name);
  }

  /** The zone contained the person at the look before the last, if there was one. */
  predicate WasInZone(cfg: Config, h: seq<Look>, name: string) { |h| > 1 && InZone(cfg.zones, h[|h| - 2].person.bbox, name) }

  /** What a look reports of a zone: one enter, one exit or nothing, by this look and the one before. */
  lemma ZoneKindsAtEnd(cfg: Config, h: seq<Look>, name: string)
    requires h != [] && UniqueNames(cfg.zones)
    ensures var now, before := InZone(cfg.zones, h[|h| - 1].person.bbox, name), WasInZone(cfg, h, name);
      KindsFor(Reports(cfg)(h), name) == if now && !before then [ZoneEnter] else if before && !now then [ZoneExit] else []
  {
    var h0, l := h[..|h| - 1], h[|h| - 1];
    ActiveZonesContain(cfg, h, name);
    if h0 != [] { ActiveZonesContain(cfg, h0, name); }
    ZoneEventsAlternate(cfg, h0, name);
    UpdateCrossing(cfg, PersonRun(cfg, h0), l, name);
    LastZoneKinds(cfg, h, name);
  }

  // ----- the shelf

  predicate NearShelf(cfg: Config, l: Look) { ItemsNear(cfg, l.person.bbox, l.items) != [] }

  function ShelfRun(cfg: Config, h: seq<Look>): nat {
    if h == [] || !NearShelf(cfg, h[|h| - 1]) then 0 else ShelfRun(cfg, h[..|h| - 1]) + 1
  }

  lemma {:induction false} ShelfRunIsCounter(cfg: Config, h: seq<Look>)
    ensures PersonRun(cfg, h).framesNearShelf == ShelfRun(cfg, h)
  {
    if h != [] { ShelfRunIsCounter(cfg, h[..|h| - 1]); }
  }

  lemma {:induction false} ShelfRunReaches(cfg: Config, h: seq<Look>, k: nat)
    requires k > 0
    ensures ShelfRun(cfg, h) >= k <==> |h| >= k && forall j :: |h| - k <= j < |h| ==> NearShelf(cfg, h[j])
  {
    if h != [] && k > 1 {
      var h0, m := h[..|h| - 1], |h| - 1;
      ShelfRunReaches(cfg, h0, k - 1);
      assert (|h| >= k && forall j :: |h| - k <= j < |h| ==> NearShelf(cfg, h[j]))
        <==> (NearShelf(cfg, h[m]) && |h0| >= k - 1 && forall j :: |h0| - (k - 1) <= j < |h0| ==> NearShelf(cfg, h0[j]));
    }
  }

  /** The counter reaches `k` exactly when the last `k` looks were all near an item. */
  lemma ShelfCounterIsRun(cfg: Config, h: seq<Look>, k: nat)
    requires k > 0
    ensures PersonRun(cfg, h).framesNearShelf >= k <==> |h| >= k && forall j :: |h| - k <= j < |h| ==> NearShelf(cfg, h[j])
  {
    ShelfRunIsCounter(cfg, h);
    ShelfRunReaches(cfg, h, k);
  }

  /** How many of the events are of this kind. */
  function KindCount(events: seq<AssocEvent>, kind: AssocType): nat {
    if events == [] then 0 else KindCount(events[..|events| - 1], kind) + (if events[|events| - 1].kind == kind then 1 else 0)
  }

  lemma {:induction false} KindCountConcat(a: seq<AssocEvent>, b: seq<AssocEvent>, kind: AssocType)
    ensures KindCount(a + b, kind) == KindCount(a, kind) + KindCount(b, kind)
  {
    if b == [] {
      assert a + b == a;
    } else {
      assert (a + b)[..|a + b| - 1] == a + b[..|b| - 1];
      KindCountConcat(a, b[..|b| - 1], kind);
    }
  }

  lemma {:induction false} NoneOfKind(events: seq<AssocEvent>, kind: AssocType)
    requires forall i :: 0 <= i < |events| ==> events[i].kind != kind
    ensures KindCount(events, kind) == 0
  {
    if events != [] { NoneOfKind(events[..|events| - 1], kind); }
  }

  lemma {:induction false} ZoneEventKinds(cfg: Config, zones: seq<Zone>, active: set<string>, track: int, bbox: BBox, ts: real)
    ensures forall i :: 0 <= i < |ZoneEvents(cfg, zones, active, track, bbox, ts)| ==>
      ZoneEvents(cfg, zones, active, track, bbox, ts)[i].kind in {ZoneEnter, ZoneExit}
  {
    if zones != [] { ZoneEventKinds(cfg, zones[..|zones| - 1], active, track, bbox, ts); }
  }

  function Once(b: bool): nat { if b then 1 else 0 }

  lemma UpdateKinds(cfg: Config, st: PersonState, l: Look)
    ensures var events, count := Events(cfg, st, l), StateAfter(cfg, st, l).framesNearShelf;
      && KindCount(events, ShelfApproach) == Once(count == 1)
      && KindCount(events, ShelfInteraction) == Once(count >= 1 && count >= cfg.shelfFrames)
      && KindCount(events, SpeedSpike) == Once(Spikes(cfg.speed, st.motion, l.person.bbox, l.ts))
  {
    var count, p := StateAfter(cfg, st, l).framesNearShelf, l.person;
    ZoneEventKinds(cfg, cfg.zones, st.activeZones, p.track, p.bbox, l.ts);
    ShelfKinds(cfg, count, p.track, l.ts);
    SpikeKinds(cfg, st.motion, p.track, p.bbox, l.ts);
    var zone, shelf := ZoneEvents(cfg, cfg.zones, st.activeZones, p.track, p.bbox, l.ts), ShelfEvents(cfg, count, p.track, l.ts);
    var ids := PickedUp(cfg, l.registry, p.bbox, cfg.order(l.gone), l.ts);
    PickupsArePickups(cfg, ids, p.track, l.ts);
    OnlyFrom(zone, shelf, PickupEvents(cfg, ids, p.track, l.ts), SpikeEvents(cfg, st.motion, p.track, p.bbox, l.ts));
  }

  lemma FourCounts(a: seq<AssocEvent>, b: seq<AssocEvent>, c: seq<AssocEvent>, d: seq<AssocEvent>, kind: AssocType)
    ensures KindCount(a + b + c + d, kind) == KindCount(a, kind) + KindCount(b, kind) + KindCount(c, kind) + KindCount(d, kind)
  {
    KindCountConcat(a + b + c, d, kind);
    KindCountConcat(a + b, c, kind);
    KindCountConcat(a, b, kind);
  }

  lemma OnlyFrom(zone: seq<AssocEvent>, shelf: seq<AssocEvent>, pickups: seq<AssocEvent>, spikes: seq<AssocEvent>)
    requires forall i :: 0 <= i < |zone| ==> zone[i].kind in {ZoneEnter, ZoneExit}
    requires forall i :: 0 <= i < |shelf| ==> shelf[i].kind in {ShelfApproach, ShelfInteraction}
    requires forall i :: 0 <= i < |pickups| ==> pickups[i].kind == ItemPickup
    requires forall i :: 0 <= i < |spikes| ==> spikes[i].kind == SpeedSpike
    ensures KindCount(zone + shelf + pickups + spikes, ShelfApproach) == KindCount(shelf, ShelfApproach)
    ensures KindCount(zone + shelf + pickups + spikes, ShelfInteraction) == KindCount(shelf, ShelfInteraction)
    ensures KindCount(zone + shelf + pickups + spikes, SpeedSpike) == KindCount(spikes, SpeedSpike)
  {
    FourCounts(zone, shelf, pickups, spikes, ShelfApproach);
    NoneOfKind(zone, ShelfApproach);
    NoneOfKind(pickups, ShelfApproach);
    NoneOfKind(spikes, ShelfApproach);
    FourCounts(zone, shelf, pickups, spikes, ShelfInteraction);
    NoneOfKind(zone, ShelfInteraction);
    NoneOfKind(pickups, ShelfInteraction);
    NoneOfKind(spikes, ShelfInteraction);
    FourCounts(zone, shelf, pickups, spikes, SpeedSpike);
    NoneOfKind(zone, SpeedSpike);
    NoneOfKind(shelf, SpeedSpike);
    NoneOfKind(pickups, SpeedSpike);
  }

  lemma SpikeKinds(cfg: Config, m: Motion, track: int, bbox: BBox, ts: real)
    ensures var spikes := SpikeEvents(cfg, m, track, bbox, ts);
      && (forall i :: 0 <= i < |spikes| ==> spikes[i].kind == SpeedSpike)
      && KindCount(spikes, SpeedSpike) == Once(Spikes(cfg.speed, m, bbox, ts))
  {
    var spikes := SpikeEvents(cfg, m, track, bbox, ts);
    if spikes != [] { assert spikes[..|spikes| - 1] == []; }
  }

  lemma ShelfKinds(cfg: Config, count: nat, track: int, ts: real)
    ensures var shelf := ShelfEvents(cfg, count, track, ts);
      && (forall i :: 0 <= i < |shelf| ==> shelf[i].kind in {ShelfApproach, ShelfInteraction})
      && KindCount(shelf, ShelfApproach) == Once(count == 1)
      && KindCount(shelf, ShelfInteraction) == Once(count >= 1 && count >= cfg.shelfFrames)
  {
    var approach := if count == 1 then [Event(cfg, track, ShelfApproach, None, None, ts)] else [];
    var interaction := if count >= cfg.shelfFrames then [Event(cfg, track, ShelfInteraction, None, None, ts)] else [];
    forall kind ensures KindCount(approach + interaction, kind) == KindCount(approach, kind) + KindCount(interaction, kind) {
      KindCountConcat(approach, interaction, kind);
    }
    assert approach != [] ==> approach[..0] == [];
    assert interaction != [] ==> interaction[..0] == [];
  }

  /**
   SHELF_APPROACH is reported once at exactly the first look of each maximal run near an item, SHELF_INTERACTION once at
   exactly the looks of a run from its n-th on.
   */
  lemma ShelfEventsExact(cfg: Config, h: seq<Look>, i: nat)
    requires i < |h|
    ensures KindCount(EventsAt(cfg, h, i), ShelfApproach) == Once(NearShelf(cfg, h[i]) && (i == 0 || !NearShelf(cfg, h[i - 1])))
    ensures KindCount(EventsAt(cfg, h, i), ShelfInteraction)
      == Once(NearFor(cfg, h, i, if cfg.shelfFrames < 1 then 1 else cfg.shelfFrames))
  {
    var n := if cfg.shelfFrames < 1 then 1 else cfg.shelfFrames;
    UpdateKinds(cfg, PersonRun(cfg, h[..i]), h[i]);
    assert h[..i + 1][..i] == h[..i];
    ShelfRunOf(cfg, h, i, 1);
    ShelfRunOf(cfg, h, i, 2);
    ShelfRunOf(cfg, h, i, n);
    assert NearFor(cfg, h, i, 1) <==> NearShelf(cfg, h[i]);
    assert NearFor(cfg, h, i, 2) <==> i >= 1 && NearShelf(cfg, h[i]) && NearShelf(cfg, h[i - 1]);
  }

  /** The last `n` looks up to look `i` were all near an item. */
  predicate NearFor(cfg: Config, h: seq<Look>, i: nat, n: nat)
    requires i < |h|
  {
    i + 1 >= n && forall j :: i + 1 - n <= j <= i ==> NearShelf(cfg, h[j])
  }

  lemma ShelfRunOf(cfg: Config, h: seq<Look>, i: nat, n: nat)
    requires i < |h| && n > 0
    ensures PersonRun(cfg, h[..i + 1]).framesNearShelf >= n <==> NearFor(cfg, h, i, n)
  {
    var g := h[..i + 1];
    ShelfCounterIsRun(cfg, g, n);
    assert forall j :: 0 <= j <= i ==> g[j] == h[j];
  }

  // ----- the speed

  /** Where and when the person was at each look. */
  function Trail(h: seq<Look>): (t: seq<Fix>)
    ensures |t| == |h|
  {
    if h == [] then [] else Trail(h[..|h| - 1]) + [Fix(h[|h| - 1].person.bbox, h[|h| - 1].ts)]
  }

  lemma {:induction false} MotionOfTrail(cfg: Config, h: seq<Look>)
    ensures PersonRun(cfg, h).motion == MotionRun(cfg.speed, Trail(h))
  {
    if h != [] {
      MotionOfTrail(cfg, h[..|h| - 1]);
      assert Trail(h)[..|h| - 1] == Trail(h[..|h| - 1]);
    }
  }

  /** SPEED_SPIKE is reported once at exactly the looks that are spikes of the person's trail. */
  lemma SpikeEventsExact(cfg: Config, h: seq<Look>, i: nat)
    requires i < |h|
    ensures KindCount(EventsAt(cfg, h, i), SpeedSpike) == Once(SpikeAtEnd(cfg.speed, Trail(h[..i + 1])))
  {
    UpdateKinds(cfg, PersonRun(cfg, h[..i]), h[i]);
    MotionOfTrail(cfg, h[..i]);
    assert h[..i + 1][..i] == h[..i];
    assert Trail(h[..i + 1])[..i] == Trail(h[..i]);
  }

  // ----- the whole engine

  function EngineRun(cfg: Config, frames: seq<Frame>): Engine {
    if frames == [] then Engine(map[], map[])
    else AfterFrame(cfg, EngineRun(cfg, frames[..|frames| - 1]), frames[|frames| - 1]).0
  }

  lemma {:induction false} EngineRegistry(cfg: Config, frames: seq<Frame>)
    ensures EngineRun(cfg, frames).registry == RegistryRun(frames)
  {
    if frames != [] { EngineRegistry(cfg, frames[..|frames| - 1]); }
  }

  function LooksOf(f: Frame, registry: map<int, Sighting>, gone: set<int>, track: int, n: nat): seq<Look>
    requires n <= |f.persons|
  {
    if n == 0 then []
    else
      LooksOf(f, registry, gone, track, n - 1)
      + (if f.persons[n - 1].track == track then [Look(f.persons[n - 1], f.items, registry, gone, f.ts)] else [])
  }

  /** The person's looks since its context was last created. */
  function HistoryOf(frames: seq<Frame>, track: int): seq<Look> {
    if frames == [] then []
    else
      var before, f := frames[..|frames| - 1], frames[|frames| - 1];
      var h := HistoryOf(before, track);
      var added := LooksOf(f, RegistryRun(frames), Gone(RegistryRun(before), f), track, |f.persons|);
      if added == [] && h != [] && f.ts - h[|h| - 1].ts > PERSON_TTL then [] else h + added
  }

  predicate Holds(cfg: Config, persons: map<int, PersonState>, track: int, h: seq<Look>) {
    if h == [] then track !in persons else track in persons && persons[track] == PersonRun(cfg, h)
  }

  lemma {:induction false} LooksPresent(f: Frame, registry: map<int, Sighting>, gone: set<int>, track: int, n: nat)
    requires n <= |f.persons|
    ensures LooksOf(f, registry, gone, track, n) != [] <==> exists i :: 0 <= i < n && f.persons[i].track == track
  {
    if n > 0 { LooksPresent(f, registry, gone, track, n - 1); }
  }

  lemma LookHolds(cfg: Config, persons: map<int, PersonState>, l: Look, track: int, h: seq<Look>)
    requires Holds(cfg, persons, track, h)
    ensures Holds(cfg, persons[l.person.track := StateAfter(cfg, PersonOf(persons, l.person.track), l)], track,
                  if l.person.track == track then h + [l] else h)
  {
    if l.person.track == track { assert (h + [l])[..|h|] == h; }
  }

  lemma LooksNext(f: Frame, registry: map<int, Sighting>, gone: set<int>, track: int, n: nat, h: seq<Look>)
    requires 0 < n <= |f.persons|
    ensures var l, h0 := Look(f.persons[n - 1], f.items, registry, gone, f.ts), h + LooksOf(f, registry, gone, track, n - 1);
      h + LooksOf(f, registry, gone, track, n) == if l.person.track == track then h0 + [l] else h0
  {
  }

  lemma PersonsNext(cfg: Config, persons: map<int, PersonState>, f: Frame, registry: map<int, Sighting>, gone: set<int>,
                    n: nat, track: int, h: seq<Look>)
    requires 0 < n <= |f.persons|
    requires Holds(cfg, PersonsAfter(cfg, persons, f, n - 1), track, h + LooksOf(f, registry, gone, track, n - 1))
    ensures Holds(cfg, PersonsAfter(cfg, persons, f, n), track, h + LooksOf(f, registry, gone, track, n))
  {
    LookHolds(cfg, PersonsAfter(cfg, persons, f, n - 1), Look(f.persons[n - 1], f.items, registry, gone, f.ts), track,
              h + LooksOf(f, registry, gone, track, n - 1));
    LooksNext(f, registry, gone, track, n, h);
  }

  lemma {:induction false} PersonsHold(cfg: Config, persons: map<int, PersonState>, f: Frame,
                                       registry: map<int, Sighting>, gone: set<int>, n: nat, track: int, h: seq<Look>)
    requires n <= |f.persons| && Holds(cfg, persons, track, h)
    ensures Holds(cfg, PersonsAfter(cfg, persons, f, n), track, h + LooksOf(f, registry, gone, track, n))
  {
    if n == 0 {
      NoMore(h);
    } else {
      PersonsHold(cfg, persons, f, registry, gone, n - 1, track, h);
      PersonsNext(cfg, persons, f, registry, gone, n, track, h);
    }
  }

  lemma LastTs(cfg: Config, h: seq<Look>)
    requires h != []
    ensures PersonRun(cfg, h).motion.lastTs == h[|h| - 1].ts
  {
  }

  lemma PruneHolds(cfg: Config, persons: map<int, PersonState>, f: Frame, track: int, h: seq<Look>)
    requires Holds(cfg, persons, track, h)
    ensures Holds(cfg, PrunePersons(persons, f), track,
                  if h != [] && !Present(f.persons, track) && f.ts - h[|h| - 1].ts > PERSON_TTL then [] else h)
  {
    if h != [] { LastTs(cfg, h); }
  }

  /** After any run each person's context is the one its own looks lead to, so the theorems above apply to it. */
  lemma {:induction false} PersonsIndependent(cfg: Config, frames: seq<Frame>, track: int)
    ensures Holds(cfg, EngineRun(cfg, frames).persons, track, HistoryOf(frames, track))
  {
    if frames != [] {
      var before, f := frames[..|frames| - 1], frames[|frames| - 1];
      PersonsIndependent(cfg, before, track);
      EngineRegistry(cfg, before);
      var h, registry, gone := HistoryOf(before, track), RegistryRun(frames), Gone(RegistryRun(before), f);
      PersonsHold(cfg, EngineRun(cfg, before).persons, f, registry, gone, |f.persons|, track, h);
      var persons := PersonsAfter(cfg, EngineRun(cfg, before).persons, f, |f.persons|);
      var added := LooksOf(f, registry, gone, track, |f.persons|);
      LooksPresent(f, registry, gone, track, |f.persons|);
      PruneHolds(cfg, persons, f, track, h + added);
      assert added == [] ==> h + added == h;
    }
  }
}
