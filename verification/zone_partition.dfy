/**
 * A partition of zones of one kind into areas, and its builder. The set of areas is a
 * sequence without duplicates; HashSet.add and HashSet.remove are Collections.Add and
 * Collections.Remove. Each builder operation is specified by a function on the partition
 * value; the builder's methods are proved to compute it.
 */
module Partition {
  import opened Wrappers
  import opened Collections
  import opened Zones
  import opened Areas

  /** Two areas share no zone. */
  predicate ZonesDisjoint(a: Area, b: Area) {
    forall z :: z in a.zones ==> z !in b.zones
  }

  /**
   * What the builder maintains: no area twice, every area well formed and non-empty, and
   * two different areas never share a zone.
   */
  predicate IsPartition(areas: seq<Area>) {
    && NoDuplicates(areas)
    && (forall a :: a in areas ==> a.Valid() && a.zones != [])
    && (forall a, b :: a in areas && b in areas && a != b ==> ZonesDisjoint(a, b))
  }

  /** The zones of all the areas. */
  function Covered(areas: seq<Area>): (r: set<Zone>)
    ensures forall z :: z in r <==> exists a :: a in areas && z in a.zones
  {
    if areas == [] then {}
    else
      assert forall a :: a in areas <==> a == areas[0] || a in areas[1..];
      Elements(areas[0].zones) + Covered(areas[1..])
  }

  /** The static areaContaining: the first area holding the zone, or an IllegalArgumentException. */
  function AreaContainingIn(zone: Zone, areas: seq<Area>): (r: Result<Area, Thrown>)
    ensures r.Success? ==> r.value in areas && zone in r.value.zones
    ensures r.Failure? <==> zone !in Covered(areas)
    ensures r.Failure? ==> r.error == IllegalArgument
  {
    if areas == [] then Failure(IllegalArgument)
    else if zone in areas[0].zones then Success(areas[0])
    else
      assert forall a :: a in areas <==> a == areas[0] || a in areas[1..];
      AreaContainingIn(zone, areas[1..])
  }

  datatype ZonePartition = ZonePartition(areas: seq<Area>) {
    function AreaContaining(zone: Zone): (r: Result<Area, Thrown>)
      ensures r.Success? ==> r.value in areas && zone in r.value.zones
      ensures r.Failure? <==> zone !in Covered(areas)
      ensures r.Failure? ==> r.error == IllegalArgument
    {
      AreaContainingIn(zone, areas)
    }

    /** addSingleton: a new area made of the zone alone, unoccupied. */
    function AddSingleton(zone: Zone, openConnections: int): (r: Result<ZonePartition, Thrown>)
      ensures r.Success? <==> openConnections >= 0
      ensures r.Success? ==> Elements(r.value.areas) == Elements(areas) + {Area([zone], [], openConnections)}
      ensures r.Failure? ==> r.error == IllegalArgument
    {
      var area :- NewArea([zone], [], openConnections);
      assert area == Area([zone], [], openConnections) by {
        assert DistinctAfter([zone][1..], [zone]) == [zone];
      }
      Success(ZonePartition(Add(areas, area)))
    }

    /** addInitialOccupant: the area holding the zone is replaced by its copy occupied by the colour. */
    function AddInitialOccupant(zone: Zone, color: PlayerColor): (r: Result<ZonePartition, Thrown>)
      ensures r.Success? <==> zone in Covered(areas) && !AreaContaining(zone).value.IsOccupied()
      ensures r.Success? ==> (Elements(r.value.areas) ==
        Elements(areas) - {AreaContaining(zone).value} + {AreaContaining(zone).value.(occupants := [color])})
      ensures r.Failure? ==> r.error == IllegalArgument
    {
      var area :- AreaContaining(zone);
      var occupied :- area.WithInitialOccupant(color);
      Success(ZonePartition(Remove(Add(areas, occupied), area)))
    }

    /** removeOccupant: the area holding the zone loses one occurrence of the colour. */
    function RemoveOccupant(zone: Zone, color: PlayerColor): (r: Result<ZonePartition, Thrown>)
      ensures r.Success? <==> zone in Covered(areas) && color in AreaContaining(zone).value.occupants
      ensures r.Success? ==> (Elements(r.value.areas) ==
        Elements(areas) - {AreaContaining(zone).value} + {AreaContaining(zone).value.WithoutOccupant(color).value})
      ensures r.Failure? ==> r.error == IllegalArgument
    {
      var area :- AreaContaining(zone);
      var smaller :- area.WithoutOccupant(color);
      assert smaller != area by {
        assert multiset(smaller.occupants)[color] < multiset(area.occupants)[color];
      }
      Success(ZonePartition(Remove(Add(areas, smaller), area)))
    }

    /** removeAllOccupantsOf: the area, which must be present, is replaced by its unoccupied copy. */
    function RemoveAllOccupantsOf(area: Area): (r: Result<ZonePartition, Thrown>)
      ensures r.Success? <==> area in areas
      ensures r.Success? ==> Elements(r.value.areas) == Elements(areas) - {area} + {area.WithoutOccupants()}
      ensures r.Failure? ==> r.error == IllegalArgument
    {
      var _ :- CheckArgument(area in areas);
      Success(ZonePartition(Add(Remove(areas, area), area.WithoutOccupants())))
    }

    /** union: the areas holding the two zones are replaced by their connection. */
    function Union(zone1: Zone, zone2: Zone): (r: Result<ZonePartition, Thrown>)
      ensures r.Success? <==>
        zone1 in Covered(areas) && zone2 in Covered(areas) &&
        AreaContaining(zone1).value.ConnectTo(AreaContaining(zone2).value).Success?
      ensures r.Success? ==> (Elements(r.value.areas) ==
        Elements(areas) - {AreaContaining(zone1).value, AreaContaining(zone2).value}
          + {AreaContaining(zone1).value.ConnectTo(AreaContaining(zone2).value).value})
      ensures r.Failure? ==> r.error == IllegalArgument
    {
      var area1 :- AreaContaining(zone1);
      var area2 :- AreaContaining(zone2);
      var newBiggerArea :- area1.ConnectTo(area2);
      Success(ZonePartition(ReplaceTwo(areas, area1, area2, newBiggerArea)))
    }
  }

  /** The areas with two of them removed and a third added, in the order union does it. */
  function ReplaceTwo(areas: seq<Area>, area1: Area, area2: Area, added: Area): (r: seq<Area>)
    ensures Elements(r) == Elements(areas) - {area1, area2} + {added}
    ensures NoDuplicates(areas) ==> NoDuplicates(r)
  {
    Add(Remove(Remove(areas, area1), area2), added)
  }

  /** The partition with no area. */
  const EmptyPartition := ZonePartition([])

  /** Within a partition the area holding a zone is the only one that does. */
  lemma AreaContainingUnique(areas: seq<Area>, a: Area, zone: Zone)
    requires IsPartition(areas) && a in areas && zone in a.zones
    ensures AreaContainingIn(zone, areas) == Success(a)
  {
    forall b | b in areas && b != a
      ensures zone !in b.zones
    {
      assert ZonesDisjoint(a, b);
    }
    OnlyAreaContaining(areas, a, zone);
  }

  lemma {:induction false} OnlyAreaContaining(areas: seq<Area>, a: Area, zone: Zone)
    requires a in areas && zone in a.zones
    requires forall b :: b in areas && b != a ==> zone !in b.zones
    ensures AreaContainingIn(zone, areas) == Success(a)
  {
    if areas[0] != a {
      assert areas[0] in areas;
      assert forall b :: b in areas[1..] ==> b in areas;
      OnlyAreaContaining(areas[1..], a, zone);
    }
  }

  /**
   * Replacing some areas of a partition by one well-formed area made of exactly their zones
   * gives a partition of the same zones.
   */
  lemma ReplaceKeepsPartition(areas: seq<Area>, result: seq<Area>, removed: set<Area>, added: Area)
    requires IsPartition(areas)
    requires removed <= Elements(areas)
    requires Elements(result) == Elements(areas) - removed + {added}
    requires NoDuplicates(result)
    requires added.Valid() && added.zones != []
    requires forall z :: z in added.zones <==> exists a :: a in removed && z in a.zones
    ensures IsPartition(result) && Covered(result) == Covered(areas)
  {
    assert forall a :: a in result <==> a in Elements(result);
    assert forall a :: a in areas <==> a in Elements(areas);
    forall a, b | a in result && b in result && a != b
      ensures ZonesDisjoint(a, b)
    {
      if a == added {
        forall z | z in a.zones
          ensures z !in b.zones
        {
          var r :| r in removed && z in r.zones;
          assert r != b && ZonesDisjoint(r, b);
        }
      } else if b == added {
        forall z | z in a.zones
          ensures z !in b.zones
        {
        }
      } else {
        assert ZonesDisjoint(a, b);
      }
    }
    forall z | z in Covered(areas)
      ensures z in Covered(result)
    {
      var a :| a in areas && z in a.zones;
      if a in removed {
        assert z in added.zones;
      } else {
        assert a in result;
      }
    }
  }

  /** A new zone becomes a singleton area of its own. */
  lemma AddSingletonKeepsPartition(p: ZonePartition, zone: Zone, openConnections: int)
    requires IsPartition(p.areas) && zone !in Covered(p.areas) && openConnections >= 0
    ensures p.AddSingleton(zone, openConnections).Success?
    ensures IsPartition(p.AddSingleton(zone, openConnections).value.areas)
    ensures Covered(p.AddSingleton(zone, openConnections).value.areas) == Covered(p.areas) + {zone}
    ensures p.AddSingleton(zone, openConnections).value.AreaContaining(zone) == Success(Area([zone], [], openConnections))
  {
    var single := Area([zone], [], openConnections);
    var result := p.AddSingleton(zone, openConnections).value.areas;
    assert single !in p.areas;
    assert forall a :: a in result <==> a in p.areas || a == single;
    forall a, b | a in result && b in result && a != b
      ensures ZonesDisjoint(a, b)
    {
      if a != single && b != single {
        assert ZonesDisjoint(a, b);
      }
    }
    assert IsPartition(result);
    AreaContainingUnique(result, single, zone);
  }

  /** Occupying an unoccupied area keeps the partition and puts the colour alone in that area. */
  lemma AddInitialOccupantKeepsPartition(p: ZonePartition, zone: Zone, color: PlayerColor)
    requires IsPartition(p.areas)
    requires p.AddInitialOccupant(zone, color).Success?
    ensures IsPartition(p.AddInitialOccupant(zone, color).value.areas)
    ensures Covered(p.AddInitialOccupant(zone, color).value.areas) == Covered(p.areas)
    ensures p.AddInitialOccupant(zone, color).value.AreaContaining(zone).value.occupants == [color]
  {
    var area := p.AreaContaining(zone).value;
    var occupied := area.(occupants := [color]);
    var result := p.AddInitialOccupant(zone, color).value.areas;
    ReplaceKeepsPartition(p.areas, result, {area}, occupied);
    AreaContainingUnique(result, occupied, zone);
  }

  /** Removing one occupant keeps the partition and the zones. */
  lemma RemoveOccupantKeepsPartition(p: ZonePartition, zone: Zone, color: PlayerColor)
    requires IsPartition(p.areas)
    requires p.RemoveOccupant(zone, color).Success?
    ensures IsPartition(p.RemoveOccupant(zone, color).value.areas)
    ensures Covered(p.RemoveOccupant(zone, color).value.areas) == Covered(p.areas)
    ensures multiset(p.RemoveOccupant(zone, color).value.AreaContaining(zone).value.occupants) ==
      multiset(p.AreaContaining(zone).value.occupants) - multiset{color}
  {
    var area := p.AreaContaining(zone).value;
    var smaller := area.WithoutOccupant(color).value;
    var result := p.RemoveOccupant(zone, color).value.areas;
    ReplaceKeepsPartition(p.areas, result, {area}, smaller);
    AreaContainingUnique(result, smaller, zone);
  }

  /** Clearing an area keeps the partition and the zones, and leaves the area's zones unoccupied. */
  lemma RemoveAllOccupantsOfKeepsPartition(p: ZonePartition, area: Area, zone: Zone)
    requires IsPartition(p.areas)
    requires p.RemoveAllOccupantsOf(area).Success?
    ensures IsPartition(p.RemoveAllOccupantsOf(area).value.areas)
    ensures Covered(p.RemoveAllOccupantsOf(area).value.areas) == Covered(p.areas)
    ensures zone in area.zones ==> !p.RemoveAllOccupantsOf(area).value.AreaContaining(zone).value.IsOccupied()
  {
    var result := p.RemoveAllOccupantsOf(area).value.areas;
    ReplaceKeepsPartition(p.areas, result, {area}, area.WithoutOccupants());
    if zone in area.zones {
      AreaContainingUnique(result, area.WithoutOccupants(), zone);
    }
  }

  /**
   * Clearing one area of a partition leaves the other given areas of the partition in it,
   * and the cleared area is none of them, its zones being theirs.
   */
  lemma RemoveAllOccupantsOfKeepsOthers(p: ZonePartition, area: Area, others: seq<Area>)
    requires IsPartition(p.areas) && area in p.areas && area !in others
    requires forall b :: b in others ==> b in p.areas
    ensures forall b :: b in others ==> b in p.RemoveAllOccupantsOf(area).value.areas
    ensures area.WithoutOccupants() !in others
  {
    var q := p.RemoveAllOccupantsOf(area).value;
    forall b | b in others
      ensures b in q.areas && b != area.WithoutOccupants()
    {
      assert b != area;
      assert b in Elements(p.areas) - {area};
      assert ZonesDisjoint(area, b);
      assert area.zones[0] !in b.zones;
    }
  }

  /**
   * A union keeps the partition and the zones, after which the two zones lie in one area
   * whose open connections are those of the two areas less the two that were joined.
   */
  lemma UnionKeepsPartition(p: ZonePartition, zone1: Zone, zone2: Zone)
    requires IsPartition(p.areas)
    requires p.Union(zone1, zone2).Success?
    ensures IsPartition(p.Union(zone1, zone2).value.areas)
    ensures Covered(p.Union(zone1, zone2).value.areas) == Covered(p.areas)
    ensures p.Union(zone1, zone2).value.AreaContaining(zone1) == p.Union(zone1, zone2).value.AreaContaining(zone2)
    ensures var a1 := p.AreaContaining(zone1).value; var a2 := p.AreaContaining(zone2).value;
      p.Union(zone1, zone2).value.AreaContaining(zone1).value.openConnections ==
        (if a1 == a2 then a1.openConnections - 2 else a1.openConnections + a2.openConnections - 2)
  {
    var a1 := p.AreaContaining(zone1).value;
    var a2 := p.AreaContaining(zone2).value;
    var joined := a1.ConnectTo(a2).value;
    assert p.Union(zone1, zone2) == Success(ZonePartition(ReplaceTwo(p.areas, a1, a2, joined)));
    JoinedHoldsBoth(p.areas, a1, a2, joined, zone1, zone2);
  }

  /** The two zones lie in one area of the partition. */
  predicate Together(p: ZonePartition, zone1: Zone, zone2: Zone) {
    zone1 in Covered(p.areas) && zone2 in Covered(p.areas) && p.AreaContaining(zone1) == p.AreaContaining(zone2)
  }

  /** A union never separates zones: two zones in one area are still in one area after it. */
  lemma UnionKeepsTogether(p: ZonePartition, zone1: Zone, zone2: Zone, a: Zone, b: Zone)
    requires IsPartition(p.areas) && p.Union(zone1, zone2).Success? && Together(p, a, b)
    ensures Together(p.Union(zone1, zone2).value, a, b)
  {
    var a1 := p.AreaContaining(zone1).value;
    var a2 := p.AreaContaining(zone2).value;
    assert p.Union(zone1, zone2).value.areas == ReplaceTwo(p.areas, a1, a2, a1.ConnectTo(a2).value);
    JoinKeepsTogether(p.areas, a1, a2, a1.ConnectTo(a2).value, p.AreaContaining(a).value, a, b);
  }

  /** Two zones of one area lie in one area once two areas are joined. */
  lemma JoinKeepsTogether(areas: seq<Area>, a1: Area, a2: Area, joined: Area, x: Area, a: Zone, b: Zone)
    requires IsPartition(areas) && a1 in areas && a2 in areas && x in areas && a in x.zones && b in x.zones
    requires joined.Valid() && Elements(joined.zones) == Elements(a1.zones) + Elements(a2.zones)
    ensures var q := ReplaceTwo(areas, a1, a2, joined);
      a in Covered(q) && b in Covered(q) && AreaContainingIn(a, q) == AreaContainingIn(b, q)
  {
    var q := ReplaceTwo(areas, a1, a2, joined);
    JoinKeepsPartition(areas, a1, a2, joined);
    var holder := if x == a1 || x == a2 then joined else x;
    assert holder in q && a in holder.zones && b in holder.zones by {
      if x == a1 || x == a2 {
        assert a in Elements(joined.zones) && b in Elements(joined.zones);
      } else {
        assert x in Elements(q);
      }
    }
    AreaContainingUnique(q, holder, a);
    AreaContainingUnique(q, holder, b);
  }

  /** After the join, the joined area is the one holding each of the two zones. */
  lemma JoinedHoldsBoth(areas: seq<Area>, a1: Area, a2: Area, joined: Area, zone1: Zone, zone2: Zone)
    requires IsPartition(areas) && a1 in areas && a2 in areas && zone1 in a1.zones && zone2 in a2.zones
    requires joined.Valid() && Elements(joined.zones) == Elements(a1.zones) + Elements(a2.zones)
    ensures IsPartition(ReplaceTwo(areas, a1, a2, joined))
    ensures Covered(ReplaceTwo(areas, a1, a2, joined)) == Covered(areas)
    ensures AreaContainingIn(zone1, ReplaceTwo(areas, a1, a2, joined)) == Success(joined)
    ensures AreaContainingIn(zone2, ReplaceTwo(areas, a1, a2, joined)) == Success(joined)
  {
    var result := ReplaceTwo(areas, a1, a2, joined);
    JoinKeepsPartition(areas, a1, a2, joined);
    assert joined in Elements(result);
    assert zone1 in Elements(a1.zones) && zone2 in Elements(a2.zones);
    assert zone1 in Elements(joined.zones) && zone2 in Elements(joined.zones);
    AreaContainingUnique(result, joined, zone1);
    AreaContainingUnique(result, joined, zone2);
  }

  /** Replacing two areas by a well-formed area holding exactly their zones keeps the partition. */
  lemma JoinKeepsPartition(areas: seq<Area>, a1: Area, a2: Area, joined: Area)
    requires IsPartition(areas) && a1 in areas && a2 in areas
    requires joined.Valid() && Elements(joined.zones) == Elements(a1.zones) + Elements(a2.zones)
    ensures IsPartition(ReplaceTwo(areas, a1, a2, joined))
    ensures Covered(ReplaceTwo(areas, a1, a2, joined)) == Covered(areas)
  {
    forall z
      ensures z in joined.zones <==> exists a :: a in {a1, a2} && z in a.zones
    {
      if z in joined.zones {
        assert z in Elements(joined.zones);
        if z in a1.zones {
          assert a1 in {a1, a2};
        } else {
          assert z in Elements(a2.zones) && a2 in {a1, a2};
        }
      } else {
        assert z !in Elements(a1.zones) + Elements(a2.zones);
      }
    }
    assert a1.zones[0] in Elements(joined.zones);
    ReplaceKeepsPartition(areas, ReplaceTwo(areas, a1, a2, joined), {a1, a2}, joined);
  }

  /** ZonePartition.Builder: a mutable set of areas, initialised from a partition. */
  class Builder {
    var areas: seq<Area>

    constructor(partition: ZonePartition)
      ensures areas == partition.areas
    {
      areas := partition.areas;
    }

    method AddSingleton(zone: Zone, openConnections: int) returns (r: Result<(), Thrown>)
      modifies this
      ensures r.Success? <==> ZonePartition(old(areas)).AddSingleton(zone, openConnections).Success?
      ensures r.Success? ==> areas == ZonePartition(old(areas)).AddSingleton(zone, openConnections).value.areas
      ensures r.Failure? ==> areas == old(areas) && r.error == IllegalArgument
    {
      var area :- NewArea([zone], [], openConnections);
      areas := Add(areas, area);
      return Success(());
    }

    method AddInitialOccupant(zone: Zone, color: PlayerColor) returns (r: Result<(), Thrown>)
      modifies this
      ensures r.Success? <==> ZonePartition(old(areas)).AddInitialOccupant(zone, color).Success?
      ensures r.Success? ==> areas == ZonePartition(old(areas)).AddInitialOccupant(zone, color).value.areas
      ensures r.Failure? ==> areas == old(areas) && r.error == IllegalArgument
    {
      var area :- AreaContainingIn(zone, areas);
      var occupied :- area.WithInitialOccupant(color);
      areas := Add(areas, occupied);
      areas := Remove(areas, area);
      return Success(());
    }

    method RemoveOccupant(zone: Zone, color: PlayerColor) returns (r: Result<(), Thrown>)
      modifies this
      ensures r.Success? <==> ZonePartition(old(areas)).RemoveOccupant(zone, color).Success?
      ensures r.Success? ==> areas == ZonePartition(old(areas)).RemoveOccupant(zone, color).value.areas
      ensures r.Failure? ==> areas == old(areas) && r.error == IllegalArgument
    {
      var area :- AreaContainingIn(zone, areas);
      var smaller :- area.WithoutOccupant(color);
      areas := Add(areas, smaller);
      areas := Remove(areas, area);
      return Success(());
    }

    method RemoveAllOccupantsOf(area: Area) returns (r: Result<(), Thrown>)
      modifies this
      ensures r.Success? <==> ZonePartition(old(areas)).RemoveAllOccupantsOf(area).Success?
      ensures r.Success? ==> areas == ZonePartition(old(areas)).RemoveAllOccupantsOf(area).value.areas
      ensures r.Failure? ==> areas == old(areas) && r.error == IllegalArgument
    {
      var areaIsFound := area in areas;
      areas := Remove(areas, area);
      if !areaIsFound {
        return Failure(IllegalArgument);
      }
      areas := Add(areas, area.WithoutOccupants());
      return Success(());
    }

    method Union(zone1: Zone, zone2: Zone) returns (r: Result<(), Thrown>)
      modifies this
      ensures r.Success? <==> ZonePartition(old(areas)).Union(zone1, zone2).Success?
      ensures r.Success? ==> areas == ZonePartition(old(areas)).Union(zone1, zone2).value.areas
      ensures r.Failure? ==> areas == old(areas) && r.error == IllegalArgument
    {
      var area1 :- AreaContainingIn(zone1, areas);
      var area2 :- AreaContainingIn(zone2, areas);
      var newBiggerArea :- area1.ConnectTo(area2);
      areas := Remove(areas, area1);
      areas := Remove(areas, area2);
      areas := Add(areas, newBiggerArea);
      return Success(());
    }

    method Build() returns (p: ZonePartition)
      ensures p.areas == areas
    {
      p := ZonePartition(areas);
    }
  }
}
