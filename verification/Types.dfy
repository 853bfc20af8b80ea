/** The event types of `shared/netra/types.py` that several stages exchange. */
module Types {
  import opened Common

  datatype AssocType =
    | ShelfApproach | ShelfInteraction | ItemPickup | ItemDisappear | ItemTransfer | ZoneEnter | ZoneExit | SpeedSpike

  datatype AssocEvent = AssocEvent(
    cameraId: string, track: int, kind: AssocType, item: Option<int>, zone: Option<string>, timestamp: real)

  datatype BBox = BBox(x1: real, y1: real, x2: real, y2: real) {
    function Cx(): real { (x1 + x2) / 2.0 }

    function Cy(): real { (y1 + y2) / 2.0 }

    function Width(): real { x2 - x1 }

    function Height(): real { y2 - y1 }
  }

  datatype Keypoint = Keypoint(x: real, y: real, conf: real)

  datatype PersonDetection = PersonDetection(track: int, bbox: BBox, keypoints: seq<Keypoint>)

  datatype ItemDetection = ItemDetection(item: int, bbox: BBox)

  predicate Present(persons: seq<PersonDetection>, track: int) {
    exists i :: 0 <= i < |persons| && persons[i].track == track
  }

  lemma SeenIsPresent(persons: seq<PersonDetection>, seen: set<int>)
    requires seen == set person | person in persons :: person.track
    ensures forall t :: t in seen <==> Present(persons, t)
  {
    forall t ensures t in seen <==> Present(persons, t) {
      if Present(persons, t) {
        var i :| 0 <= i < |persons| && persons[i].track == t;
        assert persons[i] in persons;
      }
    }
  }
}
