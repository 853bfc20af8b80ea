/**
 `AssociationEngine` of `backend/services/association/engine.py`: the item registry, and the zone set, the shelf counter
 and the motion of each person.
 */
module Association {
  import opened Common
  import opened Types
  import opened SpeedSpikes
  import opened Boxes

  const ITEM_TTL := 2.0
  const PICKUP_WINDOW := 1.5
  const PERSON_TTL := 5.0

  /** A zone; the polygon test is any predicate on the person's box. */
  datatype Zone = Zone(name: string, contains: BBox -> bool)

  datatype Sighting = Sighting(bbox: BBox, ts: real)

  datatype PersonState = PersonState(activeZones: set<string>, framesNearShelf: nat, motion: Motion)

  const NEW_PERSON := PersonState({}, 0, AT_REST)

  /**
   `order` is the order in which the interpreter walks a set of item ids; `near` and `inside` are the two tests between a
   person's box and an item's.
   */
  datatype Config = Config(
    camera: string, zones: seq<Zone>, shelfFrames: int, order: set<int> -> seq<int>,
    near: (BBox, BBox) -> bool, inside: (BBox, BBox) -> bool, speed: Rule)

  function Deployed(camera: string, zones: seq<Zone>, order: set<int> -> seq<int>, distance: (BBox, BBox) -> real): Config {
    Config(camera, zones, 4, order,
           (person, item) => IsNear(person, item),
           (person, item) => Overlaps(person, item, CONTAINMENT),
           DeployedRule(distance))
  }

  ghost predicate Enumerates(s: seq<int>, ids: set<int>) {
    && (forall x :: x in ids <==> x in s)
    && (forall i, j :: 0 <= i < j < |s| ==> s[i] != s[j])
  }

  ghost predicate LawfulOrder(order: set<int> -> seq<int>) { forall ids :: Enumerates(order(ids), ids) }

  // ----- items near a person

  function ItemsNear(cfg: Config, person: BBox, items: seq<ItemDetection>): seq<ItemDetection> {
    if items == [] then []
    else
      var last := items[|items| - 1];
      ItemsNear(cfg, person, items[..|items| - 1]) + (if cfg.near(person, last.bbox) then [last] else [])
  }

  function Near(cfg: Config, person: BBox): ItemDetection -> bool { (it: ItemDetection) => cfg.near(person, it.bbox) }

  /** The items near a person are exactly the frame's items that pass the test, each once and in order. */
  lemma {:induction false} ItemsNearSelects(cfg: Config, person: BBox, items: seq<ItemDetection>)
    ensures Selects(items, Near(cfg, person), ItemsNear(cfg, person, items))
  {
    if items == [] {
      SelectsNone(Near(cfg, person));
    } else {
      ItemsNearSelects(cfg, person, items[..|items| - 1]);
      SelectsNext(items, Near(cfg, person), ItemsNear(cfg, person, items[..|items| - 1]));
    }
  }

  lemma {:induction false} ItemsNearExact(cfg: Config, person: BBox, items: seq<ItemDetection>)
    ensures forall it :: it in ItemsNear(cfg, person, items) <==> it in items && cfg.near(person, it.bbox)
  {
    if items != [] {
      var init, last := items[..|items| - 1], items[|items| - 1];
      ItemsNearExact(cfg, person, init);
      assert items == init + [last];
    }
  }

  /** As deployed, an item is near when its centre is at most 80 px from the person's. */
  lemma DeployedNear(camera: string, zones: seq<Zone>, order: set<int> -> seq<int>, distance: (BBox, BBox) -> real,
                     person: BBox, items: seq<ItemDetection>, it: ItemDetection)
    ensures var dx, dy := (person.x1 + person.x2 - it.bbox.x1 - it.bbox.x2) / 2.0, (person.y1 + person.y2 - it.bbox.y1 - it.bbox.y2) / 2.0;
      it in ItemsNear(Deployed(camera, zones, order, distance), person, items) <==> it in items && dx * dx + dy * dy <= 80.0 * 80.0
  {
    var cfg := Deployed(camera, zones, order, distance);
    ItemsNearExact(cfg, person, items);
    assert cfg.near(person, it.bbox) == IsNear(person, it.bbox);
  }

  // ----- the item registry

  function IdsOf(items: seq<ItemDetection>): set<int> { set it | it in items :: it.item }

  function Register(registry: map<int, Sighting>, items: seq<ItemDetection>, ts: real): map<int, Sighting> {
    if items == [] then registry
    else
      var last := items[|items| - 1];
      Register(registry, items[..|items| - 1], ts)[last.item := Sighting(last.bbox, ts)]
  }

  function PruneItems(registry: map<int, Sighting>, ts: real): map<int, Sighting> {
    map id | id in registry && ts - registry[id].ts < ITEM_TTL :: registry[id]
  }

  // ----- one person

  function Event(cfg: Config, track: int, kind: AssocType, item: Option<int>, zone: Option<string>, ts: real): AssocEvent {
    AssocEvent(cfg.camera, track, kind, item, zone, ts)
  }

  function ZonesAt(zones: seq<Zone>, bbox: BBox): set<string> {
    if zones == [] then {}
    else
      var z := zones[|zones| - 1];
      ZonesAt(zones[..|zones| - 1], bbox) + (if z.contains(bbox) then {z.name} else {})
  }

  /** Some zone of that name contains the person. */
  predicate InZone(zones: seq<Zone>, bbox: BBox, name: string) {
    exists i :: 0 <= i < |zones| && zones[i].name == name && zones[i].contains(bbox)
  }

  lemma {:induction false} ZonesAtExact(zones: seq<Zone>, bbox: BBox, name: string)
    ensures name in ZonesAt(zones, bbox) <==> InZone(zones, bbox, name)
  {
    if zones != [] {
      var init := zones[..|zones| - 1];
      ZonesAtExact(init, bbox, name);
      assert InZone(zones, bbox, name) <==> InZone(init, bbox, name) || (zones[|init|].name == name && zones[|init|].contains(bbox)) by {
        if InZone(init, bbox, name) {
          var i :| 0 <= i < |init| && init[i].name == name && init[i].contains(bbox);
          assert zones[i].name == name;
        }
      }
    }
  }

  /** What one turn of the zone loop reports. */
  function ZoneEvent(cfg: Config, z: Zone, active: set<string>, track: int, bbox: BBox, ts: real): seq<AssocEvent> {
    if z.contains(bbox) then
      if z.name !in active then [Event(cfg, track, ZoneEnter, None, Some(z.name), ts)] else []
    else if z.name in active then [Event(cfg, track, ZoneExit, None, Some(z.name), ts)]
    else []
  }

  function ZoneEvents(cfg: Config, zones: seq<Zone>, active: set<string>, track: int, bbox: BBox, ts: real): seq<AssocEvent> {
    if zones == [] then []
    else
      ZoneEvents(cfg, zones[..|zones| - 1], active, track, bbox, ts)
      + ZoneEvent(cfg, zones[|zones| - 1], active, track, bbox, ts)
  }

  function ShelfCount(st: PersonState, near: bool): nat { if near then st.framesNearShelf + 1 else 0 }

  function ShelfEvents(cfg: Config, count: nat, track: int, ts: real): seq<AssocEvent> {
    if count == 0 then []
    else
      (if count == 1 then [Event(cfg, track, ShelfApproach, None, None, ts)] else [])
      + (if count >= cfg.shelfFrames then [Event(cfg, track, ShelfInteraction, None, None, ts)] else [])
  }

  predicate PicksUp(cfg: Config, registry: map<int, Sighting>, bbox: BBox, id: int, ts: real) {
    && id in registry
    && registry[id].ts > ts - PICKUP_WINDOW
    && cfg.inside(bbox, registry[id].bbox)
  }

  function PickedUp(cfg: Config, registry: map<int, Sighting>, bbox: BBox, ids: seq<int>, ts: real): seq<int> {
    if ids == [] then []
    else
      var id := ids[|ids| - 1];
      PickedUp(cfg, registry, bbox, ids[..|ids| - 1], ts) + (if PicksUp(cfg, registry, bbox, id, ts) then [id] else [])
  }

  function Picks(cfg: Config, registry: map<int, Sighting>, bbox: BBox, ts: real): int -> bool {
    (id: int) => id in registry && ts - registry[id].ts < 1.5 && cfg.inside(bbox, registry[id].bbox)
  }

  /** Of the vanished items exactly those are picked up that were seen under 1.5 s ago inside the box, each once and in order. */
  lemma {:induction false} PickedUpSelects(cfg: Config, registry: map<int, Sighting>, bbox: BBox, ids: seq<int>, ts: real)
    ensures Selects(ids, Picks(cfg, registry, bbox, ts), PickedUp(cfg, registry, bbox, ids, ts))
  {
    if ids == [] {
      SelectsNone(Picks(cfg, registry, bbox, ts));
    } else {
      PickedUpSelects(cfg, registry, bbox, ids[..|ids| - 1], ts);
      SelectsNext(ids, Picks(cfg, registry, bbox, ts), PickedUp(cfg, registry, bbox, ids[..|ids| - 1], ts));
    }
  }

  function PickupEvents(cfg: Config, ids: seq<int>, track: int, ts: real): seq<AssocEvent> {
    if ids == [] then []
    else PickupEvents(cfg, ids[..|ids| - 1], track, ts) + [Event(cfg, track, ItemPickup, Some(ids[|ids| - 1]), None, ts)]
  }

  /** The state `_update_person` leaves. */
  function NextState(cfg: Config, st: PersonState, person: PersonDetection, items: seq<ItemDetection>, ts: real): PersonState {
    PersonState(ZonesAt(cfg.zones, person.bbox), ShelfCount(st, ItemsNear(cfg, person.bbox, items) != []),
                NextMotion(cfg.speed, st.motion, person.bbox, ts))
  }

  function SpikeEvents(cfg: Config, motion: Motion, track: int, bbox: BBox, ts: real): seq<AssocEvent> {
    if Spikes(cfg.speed, motion, bbox, ts) then [Event(cfg, track, SpeedSpike, None, None, ts)] else []
  }

  /** The events it returns; `registry` is the pruned one, `gone` what was in it before and is not detected now. */
  function EventsFor(cfg: Config, st: PersonState, person: PersonDetection, items: seq<ItemDetection>,
                     registry: map<int, Sighting>, gone: set<int>, ts: real): seq<AssocEvent> {
    ZoneEvents(cfg, cfg.zones, st.activeZones, person.track, person.bbox, ts)
    + ShelfEvents(cfg, NextState(cfg, st, person, items, ts).framesNearShelf, person.track, ts)
    + PickupEvents(cfg, PickedUp(cfg, registry, person.bbox, cfg.order(gone), ts), person.track, ts)
    + SpikeEvents(cfg, st.motion, person.track, person.bbox, ts)
  }

  // ----- one frame

  datatype Frame = Frame(persons: seq<PersonDetection>, items: seq<ItemDetection>, ts: real)

  datatype Engine = Engine(persons: map<int, PersonState>, registry: map<int, Sighting>)

  function PersonOf(persons: map<int, PersonState>, track: int): PersonState {
    if track in persons then persons[track] else NEW_PERSON
  }

  /** The states after the first `n` persons of the frame. */
  function PersonsAfter(cfg: Config, persons: map<int, PersonState>, f: Frame, n: nat): map<int, PersonState>
    requires n <= |f.persons|
  {
    if n == 0 then persons
    else
      var before, person := PersonsAfter(cfg, persons, f, n - 1), f.persons[n - 1];
      before[person.track := NextState(cfg, PersonOf(before, person.track), person, f.items, f.ts)]
  }

  /** The events of the first `n` persons. */
  function EventsAfter(cfg: Config, persons: map<int, PersonState>, f: Frame, registry: map<int, Sighting>,
                       gone: set<int>, n: nat): seq<AssocEvent>
    requires n <= |f.persons|
  {
    if n == 0 then []
    else
      var person := f.persons[n - 1];
      var st := PersonOf(PersonsAfter(cfg, persons, f, n - 1), person.track);
      EventsAfter(cfg, persons, f, registry, gone, n - 1) + EventsFor(cfg, st, person, f.items, registry, gone, f.ts)
  }

  function PrunePersons(persons: map<int, PersonState>, f: Frame): map<int, PersonState> {
    map t | t in persons && (Present(f.persons, t) || f.ts - persons[t].motion.lastTs <= PERSON_TTL) :: persons[t]
  }

  function RegistryAfter(registry: map<int, Sighting>, f: Frame): map<int, Sighting> {
    PruneItems(Register(registry, f.items, f.ts), f.ts)
  }

  function Gone(registry: map<int, Sighting>, f: Frame): set<int> { registry.Keys - IdsOf(f.items) }

  function AfterFrame(cfg: Config, e: Engine, f: Frame): (Engine, seq<AssocEvent>) {
    var registry := RegistryAfter(e.registry, f);
    (Engine(PrunePersons(PersonsAfter(cfg, e.persons, f, |f.persons|), f), registry),
     EventsAfter(cfg, e.persons, f, registry, Gone(e.registry, f), |f.persons|))
  }

  class AssociationEngine {
    const cfg: Config
    var persons: map<int, PersonState>
    var lastItems: map<int, Sighting>

    constructor (cfg: Config)
      ensures this.cfg == cfg && persons == map[] && lastItems == map[]
    {
      this.cfg, persons, lastItems := cfg, map[], map[];
    }

    method ProcessFrame(f: Frame) returns (events: seq<AssocEvent>)
      modifies this
      ensures (Engine(persons, lastItems), events) == AfterFrame(cfg, Engine(old(persons), old(lastItems)), f)
    {
      var gone := lastItems.Keys - IdsOf(f.items);
      RegisterItems(f.items, f.ts);
      PruneRegistry(f.ts);
      events := UpdatePersons(f, gone);
      PruneUnseen(f);
    }

    method PruneRegistry(ts: real)
      modifies `lastItems
      ensures lastItems == PruneItems(old(lastItems), ts)
    {
      lastItems := map id | id in lastItems && ts - lastItems[id].ts < ITEM_TTL :: lastItems[id];
    }

    method PruneUnseen(f: Frame)
      modifies `persons
      ensures persons == PrunePersons(old(persons), f)
    {
      var seen := set person | person in f.persons :: person.track;
      SeenIsPresent(f.persons, seen);
      var stale := set t | t in persons && t !in seen && f.ts - persons[t].motion.lastTs > PERSON_TTL;
      persons := map t | t in persons && t !in stale :: persons[t];
    }

    method RegisterItems(items: seq<ItemDetection>, ts: real)
      modifies `lastItems
      ensures lastItems == Register(old(lastItems), items, ts)
    {
      for i := 0 to |items|
        invariant lastItems == Register(old(lastItems), items[..i], ts)
      {
        assert items[..i + 1][..i] == items[..i];
        lastItems := lastItems[items[i].item := Sighting(items[i].bbox, ts)];
      }
      assert items[..|items|] == items;
    }

    method UpdatePersons(f: Frame, gone: set<int>) returns (events: seq<AssocEvent>)
      modifies `persons
      ensures persons == PersonsAfter(cfg, old(persons), f, |f.persons|)
      ensures events == EventsAfter(cfg, old(persons), f, lastItems, gone, |f.persons|)
    {
      events := [];
      for i := 0 to |f.persons|
        invariant persons == PersonsAfter(cfg, old(persons), f, i)
        invariant events == EventsAfter(cfg, old(persons), f, lastItems, gone, i)
      {
        var person := f.persons[i];
        var more := Update(person, f.items, gone, f.ts);
        events := events + more;
      }
    }

    /** `_update_person` on the state kept for the person, created on first sight. */
    method Update(person: PersonDetection, items: seq<ItemDetection>, gone: set<int>,
                  ts: real) returns (events: seq<AssocEvent>)
      modifies `persons
      ensures var st := PersonOf(old(persons), person.track);
        && persons == old(persons)[person.track := NextState(cfg, st, person, items, ts)]
        && events == EventsFor(cfg, st, person, items, lastItems, gone, ts)
    {
      var state := if person.track in persons then persons[person.track] else NEW_PERSON;
      state, events := UpdatePerson(state, person, items, gone, ts);
      persons := persons[person.track := state];
    }

    method UpdatePerson(st: PersonState, person: PersonDetection, items: seq<ItemDetection>, gone: set<int>, ts: real)
      returns (state: PersonState, events: seq<AssocEvent>)
      ensures state == NextState(cfg, st, person, items, ts)
      ensures events == EventsFor(cfg, st, person, items, lastItems, gone, ts)
    {
      var zones, current := Zones(st.activeZones, person, ts);
      var nearby := NearbyItems(person.bbox, items);
      var count, shelf := Shelf(st, nearby != [], person.track, ts);
      var picked := Pickups(person.bbox, cfg.order(gone), ts);
      var motion, spike := UpdateMotion(cfg.speed, st.motion, person.bbox, ts);
      events := zones + shelf + PickupEvents(cfg, picked, person.track, ts);
      events := events + (if spike then [Event(cfg, person.track, SpeedSpike, None, None, ts)] else []);
      state := PersonState(current, count, motion);
    }

    method Zones(active: set<string>, person: PersonDetection, ts: real) returns (events: seq<AssocEvent>, current: set<string>)
      ensures current == ZonesAt(cfg.zones, person.bbox)
      ensures forall name :: name in current <==> InZone(cfg.zones, person.bbox, name)
      ensures events == ZoneEvents(cfg, cfg.zones, active, person.track, person.bbox, ts)
    {
      events, current := [], {};
      for i := 0 to |cfg.zones|
        invariant current == ZonesAt(cfg.zones[..i], person.bbox)
        invariant events == ZoneEvents(cfg, cfg.zones[..i], active, person.track, person.bbox, ts)
      {
        assert cfg.zones[..i + 1][..i] == cfg.zones[..i];
        var z := cfg.zones[i];
        if z.contains(person.bbox) {
          current := current + {z.name};
          if z.name !in active {
            events := events + [Event(cfg, person.track, ZoneEnter, None, Some(z.name), ts)];
          }
        } else if z.name in active {
          events := events + [Event(cfg, person.track, ZoneExit, None, Some(z.name), ts)];
        }
      }
      assert cfg.zones[..|cfg.zones|] == cfg.zones;
      forall name ensures name in current <==> InZone(cfg.zones, person.bbox, name) {
        ZonesAtExact(cfg.zones, person.bbox, name);
      }
    }

    method Shelf(state: PersonState, near: bool, track: int, ts: real) returns (count: nat, events: seq<AssocEvent>)
      ensures count == ShelfCount(state, near)
      ensures events == ShelfEvents(cfg, count, track, ts)
    {
      events := [];
      if near {
        count := state.framesNearShelf + 1;
        if count == 1 {
          events := events + [Event(cfg, track, ShelfApproach, None, None, ts)];
        }
        if count >= cfg.shelfFrames {
          events := events + [Event(cfg, track, ShelfInteraction, None, None, ts)];
        }
      } else {
        count := 0;
      }
    }

    method NearbyItems(bbox: BBox, items: seq<ItemDetection>) returns (nearby: seq<ItemDetection>)
      ensures nearby == ItemsNear(cfg, bbox, items)
      ensures Selects(items, Near(cfg, bbox), nearby)
    {
      nearby := [];
      for i := 0 to |items|
        invariant nearby == ItemsNear(cfg, bbox, items[..i])
      {
        assert items[..i + 1][..i] == items[..i];
        if cfg.near(bbox, items[i].bbox) {
          nearby := nearby + [items[i]];
        }
      }
      assert items[..|items|] == items;
      ItemsNearSelects(cfg, bbox, items);
    }

    method Pickups(bbox: BBox, ids: seq<int>, ts: real) returns (picked: seq<int>)
      ensures picked == PickedUp(cfg, lastItems, bbox, ids, ts)
      ensures Selects(ids, Picks(cfg, lastItems, bbox, ts), picked)
    {
      picked := [];
      for i := 0 to |ids|
        invariant picked == PickedUp(cfg, lastItems, bbox, ids[..i], ts)
      {
        assert ids[..i + 1][..i] == ids[..i];
        if ids[i] in lastItems {
          var last := lastItems[ids[i]];
          if last.ts > ts - PICKUP_WINDOW {
            if cfg.inside(bbox, last.bbox) {
              picked := picked + [ids[i]];
            }
          }
        }
      }
      assert ids[..|ids|] == ids;
      PickedUpSelects(cfg, lastItems, bbox, ids, ts);
    }
  }
}
