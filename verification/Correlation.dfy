/** `IncidentCorrelator.groups` of `backend/services/analytics/correlation.py`: greedy grouping of incidents across cameras. */
module Correlation {
  const WINDOW := 120.0

  datatype Incident = Incident(id: string, camera: string, occurredAt: real)

  datatype Group = Group(incidents: seq<Incident>, cameraCount: nat)

  predicate Close(a: Incident, b: Incident) { -WINDOW <= a.occurredAt - b.occurredAt <= WINDOW }

  predicate Linked(a: Incident, b: Incident) { Close(a, b) && a.camera != b.camera }

  predicate DistinctIds(s: seq<Incident>) { forall i, j :: 0 <= i < j < |s| ==> s[i].id != s[j].id }

  predicate NewestFirst(s: seq<Incident>) { forall i, j :: 0 <= i < j < |s| ==> s[i].occurredAt >= s[j].occurredAt }

  function Ids(s: seq<Incident>): set<string> { set x | x in s :: x.id }

  function Cameras(s: seq<Incident>): set<string> { set x | x in s :: x.camera }

  /** A group spans at least two cameras, and any two of its incidents are within the window. */
  predicate Correlated(g: Group) {
    && |g.incidents| >= 2
    && DistinctIds(g.incidents) && NewestFirst(g.incidents)
    && g.cameraCount == |Cameras(g.incidents)| >= 2
    && (forall a, b :: a in g.incidents && b in g.incidents ==> a.occurredAt - b.occurredAt <= 120.0)
  }

  predicate Grouped(groups: seq<Group>, id: string) {
    groups != [] && (id in Ids(groups[|groups| - 1].incidents) || Grouped(groups[..|groups| - 1], id))
  }

  predicate Disjoint(groups: seq<Group>) {
    forall i, j :: 0 <= i < j < |groups| ==> Ids(groups[i].incidents) !! Ids(groups[j].incidents)
  }

  predicate NoneNewer(group: seq<Incident>, x: Incident) {
    forall k :: 0 <= k < |group| ==> group[k].occurredAt >= x.occurredAt
  }

  lemma MemberAdded(group: seq<Incident>, x: Incident)
    requires DistinctIds(group) && x.id !in Ids(group) && NewestFirst(group) && NoneNewer(group, x)
    ensures DistinctIds(group + [x]) && NewestFirst(group + [x]) && Ids(group + [x]) == Ids(group) + {x.id}
  {
    forall y | y in group ensures y.id in Ids(group) {
    }
    assert forall k :: 0 <= k < |group| ==> group[k] in group;
    forall id ensures id in Ids(group + [x]) <==> id in Ids(group) + {x.id} {
      if id in Ids(group) {
        var y :| y in group && y.id == id;
        assert y in group + [x];
      } else if id == x.id {
        assert x in group + [x];
      }
    }
  }

  /** The inner loop: the anchor with every unused incident linked to it. */
  method GroupAround(rows: seq<Incident>, i: nat, used0: set<string>) returns (group: seq<Incident>, used: set<string>)
    requires i < |rows| && DistinctIds(rows) && NewestFirst(rows)
    requires rows[i].id !in used0 && forall k :: 0 <= k < i ==> rows[k].id in used0
    ensures group != [] && group[0] == rows[i] && DistinctIds(group) && NewestFirst(group)
    ensures forall x :: x in group ==> x in rows && x.id !in used0
    ensures forall k :: 1 <= k < |group| ==> Linked(rows[i], group[k])
    ensures used == used0 + Ids(group)
    ensures forall j :: i < j < |rows| && rows[j].id !in used ==> !Linked(rows[i], rows[j])
  {
    var inc := rows[i];
    group := [inc];
    used := used0 + {inc.id};
    var j := 0;
    while j < |rows|
      invariant j <= |rows| && group != [] && group[0] == inc
      invariant DistinctIds(group) && NewestFirst(group)
      invariant forall x :: x in group ==> x in rows && x.id !in used0
      invariant forall k :: 1 <= k < |group| ==> Linked(inc, group[k])
      invariant forall l :: i <= l < |rows| && j <= l ==> NoneNewer(group, rows[l])
      invariant used == used0 + Ids(group)
      invariant forall l :: i < l < j && rows[l].id !in used ==> !Linked(inc, rows[l])
    {
      var other := rows[j];
      if other.id !in used {
        if Linked(inc, other) {
          MemberAdded(group, other);
          group := group + [other];
          used := used + {other.id};
        }
      }
      j := j + 1;
    }
  }

  lemma AnchoredCorrelated(group: seq<Incident>)
    requires |group| > 1 && DistinctIds(group) && NewestFirst(group)
    requires forall k :: 1 <= k < |group| ==> Linked(group[0], group[k])
    ensures Correlated(Group(group, |Cameras(group)|))
  {
    assert group[0].camera in Cameras(group) && group[1].camera in Cameras(group);
    assert {group[0].camera, group[1].camera} <= Cameras(group);
    SubsetCount({group[0].camera, group[1].camera}, Cameras(group));
    forall a, b | a in group && b in group ensures Close(a, b) {
      assert Close(group[0], a) && Close(group[0], b);
    }
  }

  lemma {:induction false} SubsetCount(a: set<string>, b: set<string>)
    requires a <= b
    ensures |a| <= |b|
  {
    if a != {} {
      var x :| x in a;
      SubsetCount(a - {x}, b - {x});
    }
  }

  /** Between two rounds: earlier rows are used, other used rows are grouped, and no earlier ungrouped row was missed. */
  predicate Progress(rows: seq<Incident>, groups: seq<Group>, used: set<string>, i: nat)
    requires i <= |rows|
  {
    && (forall k :: 0 <= k < i ==> rows[k].id in used)
    && (forall j :: i <= j < |rows| && rows[j].id in used ==> Grouped(groups, rows[j].id))
    && (forall g :: g in groups ==> Ids(g.incidents) <= used)
    && (forall k, j ::
         0 <= k < i && k < j < |rows| && !Grouped(groups, rows[k].id) && !Grouped(groups, rows[j].id)
         ==> !Linked(rows[k], rows[j]))
  }

  lemma GroupedNext(groups: seq<Group>, g: Group, id: string)
    ensures Grouped(groups + [g], id) <==> Grouped(groups, id) || id in Ids(g.incidents)
  {
    assert (groups + [g])[..|groups|] == groups;
  }

  /** A used row keeps the invariant as it is passed over. */
  lemma ProgressSkip(rows: seq<Incident>, groups: seq<Group>, used: set<string>, i: nat)
    requires i < |rows| && Progress(rows, groups, used, i) && rows[i].id in used
    ensures Progress(rows, groups, used, i + 1)
  {
  }

  lemma ProgressAlone(rows: seq<Incident>, groups: seq<Group>, used: set<string>, i: nat)
    requires i < |rows| && Progress(rows, groups, used, i) && DistinctIds(rows)
    requires forall j :: i < j < |rows| && rows[j].id !in used ==> !Linked(rows[i], rows[j])
    ensures Progress(rows, groups, used + {rows[i].id}, i + 1)
  {
  }

  lemma ProgressGrouped(rows: seq<Incident>, groups: seq<Group>, used: set<string>, i: nat, g: Group)
    requires i < |rows| && Progress(rows, groups, used, i) && rows[i] in g.incidents
    ensures Progress(rows, groups + [g], used + Ids(g.incidents), i + 1)
  {
    forall id ensures Grouped(groups + [g], id) <==> Grouped(groups, id) || id in Ids(g.incidents) {
      GroupedNext(groups, g, id);
    }
    assert rows[i].id in Ids(g.incidents);
  }

  /** The search stopped with the group whose anchor comes before row `i`. */
  predicate StoppedBefore(rows: seq<Incident>, groups: seq<Group>, limit: nat, i: nat)
    requires i <= |rows|
  {
    && |groups| == limit > 0
    && groups[limit - 1].incidents != []
    && groups[limit - 1].incidents[0] in rows[..i]
  }

  predicate AllCorrelated(rows: seq<Incident>, groups: seq<Group>) {
    forall g :: g in groups ==> Correlated(g) && forall x :: x in g.incidents ==> x in rows
  }

  lemma GroupAdded(rows: seq<Incident>, groups: seq<Group>, used: set<string>, group: seq<Incident>)
    requires Disjoint(groups) && AllCorrelated(rows, groups) && forall g :: g in groups ==> Ids(g.incidents) <= used
    requires |group| > 1 && DistinctIds(group) && NewestFirst(group)
    requires forall k :: 1 <= k < |group| ==> Linked(group[0], group[k])
    requires forall x :: x in group ==> x in rows && x.id !in used
    ensures Disjoint(groups + [Group(group, |Cameras(group)|)])
    ensures AllCorrelated(rows, groups + [Group(group, |Cameras(group)|)])
  {
    AnchoredCorrelated(group);
    forall k | 0 <= k < |groups| ensures Ids(groups[k].incidents) !! Ids(group) {
      assert groups[k] in groups;
    }
  }

  /**
   The groups are correlated and disjoint, and of two linked incidents one is in a group, unless the limit was reached
   with a group around an incident listed before both.
   */
  method Groups(rows: seq<Incident>, limit: nat) returns (groups: seq<Group>)
    requires DistinctIds(rows) && NewestFirst(rows) && |rows| <= 5 * limit
    ensures |groups| <= limit && Disjoint(groups)
    ensures AllCorrelated(rows, groups)
    ensures forall i, j ::
      && 0 <= i < j < |rows| && !Grouped(groups, rows[i].id) && !Grouped(groups, rows[j].id)
      && rows[i].camera != rows[j].camera && rows[i].occurredAt - rows[j].occurredAt <= 120.0
      ==> StoppedBefore(rows, groups, limit, i)
  {
    groups := [];
    var used: set<string> := {};
    var i := 0;
    while i < |rows|
      invariant i <= |rows| && |groups| <= limit && (i < |rows| ==> |groups| < limit)
      invariant Disjoint(groups)
      invariant AllCorrelated(rows, groups)
      invariant Progress(rows, groups, used, i)
    {
      if rows[i].id in used {
        ProgressSkip(rows, groups, used, i);
      } else {
        var group, used1 := GroupAround(rows, i, used);
        if |group| > 1 {
          GroupAdded(rows, groups, used, group);
          ProgressGrouped(rows, groups, used, i, Group(group, |Cameras(group)|));
          groups := groups + [Group(group, |Cameras(group)|)];
        } else {
          assert group == [rows[i]];
          ProgressAlone(rows, groups, used, i);
        }
        used := used1;
        if |groups| >= limit {
          assert rows[i] in rows[..i + 1];
          break;
        }
      }
      i := i + 1;
    }
  }
}
