/**
 * The four zone partitions of a board (forests, meadows, rivers, river systems) and their
 * builder. Every builder operation is specified by a function on the partitions value and
 * fails, like the source, with an IllegalArgumentException; the builder's methods are proved
 * to compute these functions. After a failure the builder is discarded by every caller, so
 * its state is left unspecified then.
 */
module Partitions {
  import opened Wrappers
  import opened Collections
  import opened Zones
  import opened Tiles
  import opened Areas
  import Partition

  type ZonePartition = Partition.ZonePartition

  /** The areas of the four partitions, as sets. */
  datatype AreaSets = AreaSets(forests: set<Area>, meadows: set<Area>, rivers: set<Area>, riverSystems: set<Area>) {
    function Plus(that: AreaSets): AreaSets {
      AreaSets(forests + that.forests, meadows + that.meadows, rivers + that.rivers, riverSystems + that.riverSystems)
    }
  }

  datatype ZonePartitions = ZonePartitions(
    forests: ZonePartition,
    meadows: ZonePartition,
    rivers: ZonePartition,
    riverSystems: ZonePartition)
  {
    /** Each of the four is a partition. */
    predicate IsPartitions() {
      && Partition.IsPartition(forests.areas)
      && Partition.IsPartition(meadows.areas)
      && Partition.IsPartition(rivers.areas)
      && Partition.IsPartition(riverSystems.areas)
    }

    /** The zones of the four partitions. */
    function Zones(): set<Zone> {
      Partition.Covered(forests.areas) + Partition.Covered(meadows.areas) +
      Partition.Covered(rivers.areas) + Partition.Covered(riverSystems.areas)
    }

    function Areas(): AreaSets {
      AreaSets(Elements(forests.areas), Elements(meadows.areas), Elements(rivers.areas), Elements(riverSystems.areas))
    }

    /** The partition an occupant of the kind joins on the zone: the river systems for a hut. */
    function PartitionOf(kind: OccupantKind, zone: Zone): ZonePartition {
      if kind == Hut || zone.LakeZone? then riverSystems
      else if zone.ForestZone? then forests
      else if zone.MeadowZone? then meadows
      else rivers
    }

    /**
     * addTile: one singleton area per zone of the tile, with the zone's open connections, then
     * each river that ends in a lake joined with that lake in the river systems (the latter is
     * stated by AddTileKeepsPartitions).
     */
    function AddTile(tile: Tile): (r: Result<ZonePartitions, Thrown>)
      ensures r.Success? ==> (forall z :: z in tile.Zones() ==> OwnOpenOf(z, OpenConnections(tile)) >= 0)
      ensures r.Success? ==>
        var added := Singletons(tile.Zones(), OpenConnections(tile));
        && Elements(r.value.forests.areas) == Elements(forests.areas) + added.forests
        && Elements(r.value.meadows.areas) == Elements(meadows.areas) + added.meadows
        && Elements(r.value.rivers.areas) == Elements(rivers.areas) + added.rivers
      ensures r.Failure? ==> r.error == IllegalArgument
    {
      var withSingletons :- AddSingletons(this, tile.Zones(), OpenConnections(tile));
      UniteRiversWithLakes(withSingletons, tile.Zones())
    }

    /**
     * connectSides: two facing sides of the same kind join their areas; a river side joins the
     * rivers, the river systems, and its meadows crosswise. Other pairs are refused.
     */
    function ConnectSides(s1: TileSide, s2: TileSide): (r: Result<ZonePartitions, Thrown>)
      ensures !s1.IsSameKindAs(s2) ==> r == Failure(IllegalArgument)
      ensures s1.MeadowSide? && s2.MeadowSide? ==>
        var m := meadows.Union(MeadowZone(s1.meadow), MeadowZone(s2.meadow));
        && (r.Success? <==> m.Success?)
        && (r.Success? ==> r.value == this.(meadows := m.value))
      ensures s1.ForestSide? && s2.ForestSide? ==>
        var f := forests.Union(ForestZone(s1.forest), ForestZone(s2.forest));
        && (r.Success? <==> f.Success?)
        && (r.Success? ==> r.value == this.(forests := f.value))
      ensures s1.RiverSide? && s2.RiverSide? ==>
        var rv := rivers.Union(RiverZone(s1.river), RiverZone(s2.river));
        var rs := riverSystems.Union(RiverZone(s1.river), RiverZone(s2.river));
        var ms1 := meadows.Union(MeadowZone(s1.meadow1), MeadowZone(s2.meadow2));
        var ms2 := if ms1.Success? then ms1.value.Union(MeadowZone(s1.meadow2), MeadowZone(s2.meadow1)) else ms1;
        && (r.Success? <==> rv.Success? && rs.Success? && ms2.Success?)
        && (r.Success? ==> r.value == ZonePartitions(forests, ms2.value, rv.value, rs.value))
      ensures r.Failure? ==> r.error == IllegalArgument
    {
      match s1
      case MeadowSide(m1) =>
        if s2.MeadowSide? then
          var m :- meadows.Union(MeadowZone(m1), MeadowZone(s2.meadow));
          Success(this.(meadows := m))
        else Failure(IllegalArgument)
      case ForestSide(f1) =>
        if s2.ForestSide? then
          var f :- forests.Union(ForestZone(f1), ForestZone(s2.forest));
          Success(this.(forests := f))
        else Failure(IllegalArgument)
      case RiverSide(m1, r1, m2) =>
        if s2.RiverSide? then
          var rv :- rivers.Union(RiverZone(r1), RiverZone(s2.river));
          var rs :- riverSystems.Union(RiverZone(r1), RiverZone(s2.river));
          var ms1 :- meadows.Union(MeadowZone(m1), MeadowZone(s2.meadow2));
          var ms2 :- ms1.Union(MeadowZone(m2), MeadowZone(s2.meadow1));
          Success(ZonePartitions(forests, ms2, rv, rs))
        else Failure(IllegalArgument)
    }

    /**
     * addInitialOccupant: a pawn goes to the forest, meadow or river partition of its zone, a hut
     * to the river systems; a pawn on a lake and a hut on a forest or meadow are refused.
     */
    function AddInitialOccupant(occupant: PlayerColor, kind: OccupantKind, zone: Zone): (r: Result<ZonePartitions, Thrown>)
      ensures (kind == Pawn && zone.LakeZone?) || (kind == Hut && !zone.IsWater()) ==> r == Failure(IllegalArgument)
      ensures kind == Hut && zone.IsWater() ==>
        var rs := riverSystems.AddInitialOccupant(zone, occupant);
        (r.Success? <==> rs.Success?) && (r.Success? ==> r.value == this.(riverSystems := rs.value))
      ensures kind == Pawn && zone.RiverZone? ==>
        var rv := rivers.AddInitialOccupant(zone, occupant);
        (r.Success? <==> rv.Success?) && (r.Success? ==> r.value == this.(rivers := rv.value))
      ensures kind == Pawn && zone.MeadowZone? ==>
        var m := meadows.AddInitialOccupant(zone, occupant);
        (r.Success? <==> m.Success?) && (r.Success? ==> r.value == this.(meadows := m.value))
      ensures kind == Pawn && zone.ForestZone? ==>
        var f := forests.AddInitialOccupant(zone, occupant);
        (r.Success? <==> f.Success?) && (r.Success? ==> r.value == this.(forests := f.value))
      ensures r.Failure? ==> r.error == IllegalArgument
    {
      match zone
      case MeadowZone(_) =>
        if kind == Pawn then
          var m :- meadows.AddInitialOccupant(zone, occupant);
          Success(this.(meadows := m))
        else Failure(IllegalArgument)
      case ForestZone(_) =>
        if kind == Pawn then
          var f :- forests.AddInitialOccupant(zone, occupant);
          Success(this.(forests := f))
        else Failure(IllegalArgument)
      case RiverZone(_) =>
        if kind == Pawn then
          var rv :- rivers.AddInitialOccupant(zone, occupant);
          Success(this.(rivers := rv))
        else
          var rs :- riverSystems.AddInitialOccupant(zone, occupant);
          Success(this.(riverSystems := rs))
      case LakeZone(_) =>
        if kind == Hut then
          var rs :- riverSystems.AddInitialOccupant(zone, occupant);
          Success(this.(riverSystems := rs))
        else Failure(IllegalArgument)
    }

    /** removePawn: the pawn leaves the area of its forest, meadow or river; a lake is refused. */
    function RemovePawn(occupant: PlayerColor, zone: Zone): (r: Result<ZonePartitions, Thrown>)
      ensures zone.LakeZone? ==> r == Failure(IllegalArgument)
      ensures zone.MeadowZone? ==>
        var m := meadows.RemoveOccupant(zone, occupant);
        (r.Success? <==> m.Success?) && (r.Success? ==> r.value == this.(meadows := m.value))
      ensures zone.ForestZone? ==>
        var f := forests.RemoveOccupant(zone, occupant);
        (r.Success? <==> f.Success?) && (r.Success? ==> r.value == this.(forests := f.value))
      ensures zone.RiverZone? ==>
        var rv := rivers.RemoveOccupant(zone, occupant);
        (r.Success? <==> rv.Success?) && (r.Success? ==> r.value == this.(rivers := rv.value))
      ensures r.Failure? ==> r.error == IllegalArgument
    {
      match zone
      case MeadowZone(_) =>
        var m :- meadows.RemoveOccupant(zone, occupant);
        Success(this.(meadows := m))
      case ForestZone(_) =>
        var f :- forests.RemoveOccupant(zone, occupant);
        Success(this.(forests := f))
      case RiverZone(_) =>
        var rv :- rivers.RemoveOccupant(zone, occupant);
        Success(this.(rivers := rv))
      case LakeZone(_) => Failure(IllegalArgument)
    }

    /** clearGatherers: the forest area, which must be present, loses all its occupants. */
    function ClearGatherers(forest: Area): (r: Result<ZonePartitions, Thrown>)
      ensures r.Success? <==> forest in forests.areas
      ensures r.Success? ==> r.value == this.(forests := forests.RemoveAllOccupantsOf(forest).value)
      ensures r.Failure? ==> r.error == IllegalArgument
    {
      var f :- forests.RemoveAllOccupantsOf(forest);
      Success(this.(forests := f))
    }

    /** clearFishers: the river area, which must be present, loses all its occupants. */
    function ClearFishers(river: Area): (r: Result<ZonePartitions, Thrown>)
      ensures r.Success? <==> river in rivers.areas
      ensures r.Success? ==> r.value == this.(rivers := rivers.RemoveAllOccupantsOf(river).value)
      ensures r.Failure? ==> r.error == IllegalArgument
    {
      var rv :- rivers.RemoveAllOccupantsOf(river);
      Success(this.(rivers := rv))
    }
  }

  /** ZonePartitions.EMPTY. */
  const Empty := ZonePartitions(Partition.EmptyPartition, Partition.EmptyPartition, Partition.EmptyPartition, Partition.EmptyPartition)

  /** The zones of the sides, in order, with repeats: what addTile's nested loops visit. */
  function SideOccurrences(sides: seq<TileSide>): seq<Zone> {
    if sides == [] then [] else SideOccurrences(sides[..|sides| - 1]) + sides[|sides| - 1].Zones()
  }

  /**
   * What one occurrence of a zone on a side adds to the open connections of local id l: one
   * for the zone, and for a river ending in a lake one more for the river and one for the lake.
   */
  function Contribution(zone: Zone, l: int): nat {
    (if zone.LocalId() == l then 1 else 0) +
    (if zone.RiverZone? && zone.river.HasLake() then
       (if LocalIdOf(zone.river.lake.value.id) == l then 1 else 0) + (if zone.LocalId() == l then 1 else 0)
     else 0)
  }

  /** The open connections counted for local id l over a sequence of occurrences. */
  function OpenCount(occurrences: seq<Zone>, l: int): nat {
    if occurrences == [] then 0
    else OpenCount(occurrences[..|occurrences| - 1], l) + Contribution(occurrences[|occurrences| - 1], l)
  }

  /** openConnectionsPerZone once the loops over the four sides are done. */
  function OpenConnections(tile: Tile): (counts: seq<int>)
    ensures |counts| == 10
    ensures forall l :: 0 <= l < 10 ==> counts[l] == OpenCount(SideOccurrences(tile.Sides()), l)
  {
    seq(10, l => OpenCount(SideOccurrences(tile.Sides()), l))
  }

  /** The open connections counted for a zone, at its local identifier. */
  function OpenOf(zone: Zone, counts: seq<int>): int
    requires |counts| == 10
  {
    ZoneIdsOfZone(zone);
    counts[zone.LocalId()]
  }

  /**
   * The open connections of a zone's singleton in the partition of its own kind. A river gets
   * one fewer in the rivers than in the river systems when it ends in a lake, the connection to
   * the lake being closed there.
   */
  function OwnOpenOf(zone: Zone, counts: seq<int>): int
    requires |counts| == 10
  {
    if zone.RiverZone? && zone.river.HasLake() then OpenOf(zone, counts) - 1 else OpenOf(zone, counts)
  }

  /**
   * The singleton areas addTile creates for the zones: forests, meadows and rivers in the
   * partition of their kind, rivers and lakes also in the river systems.
   */
  function Singletons(zones: seq<Zone>, counts: seq<int>): AreaSets
    requires |counts| == 10
  {
    AreaSets(
      set z | z in zones && z.ForestZone? :: Area([z], [], OpenOf(z, counts)),
      set z | z in zones && z.MeadowZone? :: Area([z], [], OpenOf(z, counts)),
      set z | z in zones && z.RiverZone? :: Area([z], [], OwnOpenOf(z, counts)),
      set z | z in zones && z.IsWater() :: Area([z], [], OpenOf(z, counts)))
  }

  /** The singleton areas of one zone; refused when the zone's own count is negative. */
  function AddZone(p: ZonePartitions, zone: Zone, counts: seq<int>): (r: Result<ZonePartitions, Thrown>)
    requires |counts| == 10
    ensures r.Success? <==> OwnOpenOf(zone, counts) >= 0
    ensures r.Success? ==> r.value.Areas() == p.Areas().Plus(Singletons([zone], counts))
    ensures r.Failure? ==> r.error == IllegalArgument
  {
    var c := OpenOf(zone, counts);
    SingletonsOfOne(zone, counts);
    PlusNothing(Elements(p.forests.areas));
    PlusNothing(Elements(p.meadows.areas));
    PlusNothing(Elements(p.rivers.areas));
    PlusNothing(Elements(p.riverSystems.areas));
    match zone
    case ForestZone(_) =>
      var f :- p.forests.AddSingleton(zone, c);
      Success(p.(forests := f))
    case MeadowZone(_) =>
      var m :- p.meadows.AddSingleton(zone, c);
      Success(p.(meadows := m))
    case RiverZone(river) =>
      var rv :- p.rivers.AddSingleton(zone, OwnOpenOf(zone, counts));
      // the river's count is not negative once the rivers accepted it, so this one succeeds
      var rs := p.riverSystems.AddSingleton(zone, c).value;
      Success(p.(rivers := rv, riverSystems := rs))
    case LakeZone(_) =>
      var rs :- p.riverSystems.AddSingleton(zone, c);
      Success(p.(riverSystems := rs))
  }

  /** The singletons of one zone, by its kind. */
  lemma SingletonsOfOne(zone: Zone, counts: seq<int>)
    requires |counts| == 10
    ensures var c := OpenOf(zone, counts); var single := {Area([zone], [], c)};
      Singletons([zone], counts) ==
        match zone
        case ForestZone(_) => AreaSets(single, {}, {}, {})
        case MeadowZone(_) => AreaSets({}, single, {}, {})
        case RiverZone(_) => AreaSets({}, {}, {Area([zone], [], OwnOpenOf(zone, counts))}, single)
        case LakeZone(_) => AreaSets({}, {}, {}, single)
  {
  }

  /** The singleton areas of the zones, one after the other; refused when a count is negative. */
  function AddSingletons(p: ZonePartitions, zones: seq<Zone>, counts: seq<int>): (r: Result<ZonePartitions, Thrown>)
    requires |counts| == 10
    ensures r.Success? <==> forall z :: z in zones ==> OwnOpenOf(z, counts) >= 0
    ensures r.Success? ==> r.value.Areas() == p.Areas().Plus(Singletons(zones, counts))
    ensures r.Failure? ==> r.error == IllegalArgument
    decreases |zones|
  {
    if zones == [] then
      assert Singletons(zones, counts) == AreaSets({}, {}, {}, {});
      Success(p)
    else
      var q :- AddZone(p, zones[0], counts);
      var rest := AddSingletons(q, zones[1..], counts);
      assert forall z :: z in zones <==> z == zones[0] || z in zones[1..];
      if rest.Success? then
        SingletonsSplit(p, q, rest.value, zones, counts);
        rest
      else rest
  }

  /** The singletons of a sequence of zones are those of its head and of its tail. */
  lemma SingletonsSplit(p: ZonePartitions, q: ZonePartitions, r: ZonePartitions, zones: seq<Zone>, counts: seq<int>)
    requires |counts| == 10 && zones != []
    requires q.Areas() == p.Areas().Plus(Singletons([zones[0]], counts))
    requires r.Areas() == q.Areas().Plus(Singletons(zones[1..], counts))
    ensures r.Areas() == p.Areas().Plus(Singletons(zones, counts))
  {
    SingletonsOfHeadAndTail(zones, counts);
  }

  lemma SingletonsOfHeadAndTail(zones: seq<Zone>, counts: seq<int>)
    requires |counts| == 10 && zones != []
    ensures Singletons(zones, counts) == Singletons([zones[0]], counts).Plus(Singletons(zones[1..], counts))
  {
    assert forall z :: z in zones <==> z in [zones[0]] || z in zones[1..];
  }

  /** A river ending in a lake is joined with the lake in the river systems; other zones change nothing. */
  function UniteRiverWithLake(p: ZonePartitions, zone: Zone): (r: Result<ZonePartitions, Thrown>)
    ensures !(zone.RiverZone? && zone.river.HasLake()) ==> r == Success(p)
    ensures zone.RiverZone? && zone.river.HasLake() ==>
      var rs := p.riverSystems.Union(zone, LakeZone(zone.river.lake.value));
      (r.Success? <==> rs.Success?) && (r.Success? ==> r.value == p.(riverSystems := rs.value))
    ensures r.Failure? ==> r.error == IllegalArgument
  {
    if zone.RiverZone? && zone.river.HasLake() then
      var rs :- p.riverSystems.Union(zone, LakeZone(zone.river.lake.value));
      Success(p.(riverSystems := rs))
    else Success(p)
  }

  /** Every river of the zones that ends in a lake is joined with it, in the order of the zones. */
  function UniteRiversWithLakes(p: ZonePartitions, zones: seq<Zone>): (r: Result<ZonePartitions, Thrown>)
    ensures r.Success? ==> r.value.forests == p.forests && r.value.meadows == p.meadows && r.value.rivers == p.rivers
    ensures r.Failure? ==> r.error == IllegalArgument
    decreases |zones|
  {
    if zones == [] then Success(p)
    else
      var q :- UniteRiverWithLake(p, zones[0]);
      UniteRiversWithLakes(q, zones[1..])
  }

  /**
   * connectSides keeps the four partitions and their zones, and leaves each pair of facing zones
   * in one area: the two rivers, and the meadows crosswise for river sides.
   */
  lemma ConnectSidesKeepsPartitions(p: ZonePartitions, s1: TileSide, s2: TileSide)
    requires p.IsPartitions() && p.ConnectSides(s1, s2).Success?
    ensures var q := p.ConnectSides(s1, s2).value;
      && q.IsPartitions() && q.Zones() == p.Zones()
      && (s1.ForestSide? ==> Partition.Together(q.forests, ForestZone(s1.forest), ForestZone(s2.forest)))
      && (s1.MeadowSide? ==> Partition.Together(q.meadows, MeadowZone(s1.meadow), MeadowZone(s2.meadow)))
      && (s1.RiverSide? ==>
            && Partition.Together(q.rivers, RiverZone(s1.river), RiverZone(s2.river))
            && Partition.Together(q.riverSystems, RiverZone(s1.river), RiverZone(s2.river))
            && Partition.Together(q.meadows, MeadowZone(s1.meadow1), MeadowZone(s2.meadow2))
            && Partition.Together(q.meadows, MeadowZone(s1.meadow2), MeadowZone(s2.meadow1)))
  {
    var q := p.ConnectSides(s1, s2).value;
    match s1
    case ForestSide(f1) =>
      Partition.UnionKeepsPartition(p.forests, ForestZone(f1), ForestZone(s2.forest));
      KeepsPartitions(p, q.forests, q.meadows, q.rivers, q.riverSystems);
    case MeadowSide(m1) =>
      Partition.UnionKeepsPartition(p.meadows, MeadowZone(m1), MeadowZone(s2.meadow));
      KeepsPartitions(p, q.forests, q.meadows, q.rivers, q.riverSystems);
    case RiverSide(m1, r1, m2) =>
      Partition.UnionKeepsPartition(p.rivers, RiverZone(r1), RiverZone(s2.river));
      Partition.UnionKeepsPartition(p.riverSystems, RiverZone(r1), RiverZone(s2.river));
      CrosswiseKeepsPartition(p.meadows, m1, m2, s2.meadow1, s2.meadow2);
      KeepsPartitions(p, q.forests, q.meadows, q.rivers, q.riverSystems);
  }

  /** The two crosswise unions of the meadows of facing river sides keep a partition and its zones. */
  lemma CrosswiseKeepsPartition(meadows: ZonePartition, m1: Meadow, m2: Meadow, n1: Meadow, n2: Meadow)
    requires Partition.IsPartition(meadows.areas)
    requires meadows.Union(MeadowZone(m1), MeadowZone(n2)).Success?
    requires meadows.Union(MeadowZone(m1), MeadowZone(n2)).value.Union(MeadowZone(m2), MeadowZone(n1)).Success?
    ensures var r := meadows.Union(MeadowZone(m1), MeadowZone(n2)).value.Union(MeadowZone(m2), MeadowZone(n1)).value;
      && Partition.IsPartition(r.areas) && Partition.Covered(r.areas) == Partition.Covered(meadows.areas)
      && Partition.Together(r, MeadowZone(m1), MeadowZone(n2))
      && Partition.Together(r, MeadowZone(m2), MeadowZone(n1))
  {
    var ms1 := meadows.Union(MeadowZone(m1), MeadowZone(n2)).value;
    Partition.UnionKeepsPartition(meadows, MeadowZone(m1), MeadowZone(n2));
    Partition.UnionKeepsPartition(ms1, MeadowZone(m2), MeadowZone(n1));
    Partition.UnionKeepsTogether(ms1, MeadowZone(m2), MeadowZone(n1), MeadowZone(m1), MeadowZone(n2));
  }

  /**
   * addInitialOccupant keeps the four partitions and their zones, and the occupant is then the
   * only one of the area holding the zone.
   */
  lemma AddInitialOccupantKeepsPartitions(p: ZonePartitions, occupant: PlayerColor, kind: OccupantKind, zone: Zone)
    requires p.IsPartitions() && p.AddInitialOccupant(occupant, kind, zone).Success?
    ensures var q := p.AddInitialOccupant(occupant, kind, zone).value;
      && q.IsPartitions() && q.Zones() == p.Zones()
      && q.PartitionOf(kind, zone).AreaContaining(zone).value.occupants == [occupant]
  {
    var q := p.AddInitialOccupant(occupant, kind, zone).value;
    var part := p.PartitionOf(kind, zone);
    var occupied := part.AddInitialOccupant(zone, occupant).value;
    if kind == Hut {
      assert q == p.(riverSystems := occupied);
    } else if zone.ForestZone? {
      assert q == p.(forests := occupied);
    } else if zone.MeadowZone? {
      assert q == p.(meadows := occupied);
    } else {
      assert q == p.(rivers := occupied);
    }
    Partition.AddInitialOccupantKeepsPartition(part, zone, occupant);
    KeepsPartitions(p, q.forests, q.meadows, q.rivers, q.riverSystems);
  }

  /** removePawn keeps the four partitions and their zones. */
  lemma RemovePawnKeepsPartitions(p: ZonePartitions, occupant: PlayerColor, zone: Zone)
    requires p.IsPartitions() && p.RemovePawn(occupant, zone).Success?
    ensures p.RemovePawn(occupant, zone).value.IsPartitions()
    ensures p.RemovePawn(occupant, zone).value.Zones() == p.Zones()
  {
    var q := p.RemovePawn(occupant, zone).value;
    match zone
    case MeadowZone(_) =>
      Partition.RemoveOccupantKeepsPartition(p.meadows, zone, occupant);
      KeepsPartitions(p, q.forests, q.meadows, q.rivers, q.riverSystems);
    case ForestZone(_) =>
      Partition.RemoveOccupantKeepsPartition(p.forests, zone, occupant);
      KeepsPartitions(p, q.forests, q.meadows, q.rivers, q.riverSystems);
    case RiverZone(_) =>
      Partition.RemoveOccupantKeepsPartition(p.rivers, zone, occupant);
      KeepsPartitions(p, q.forests, q.meadows, q.rivers, q.riverSystems);
  }

  /** Partitions over the same zones as the four of p, taken together, are partitions over p's zones. */
  lemma KeepsPartitions(p: ZonePartitions, forests: ZonePartition, meadows: ZonePartition, rivers: ZonePartition, riverSystems: ZonePartition)
    requires Partition.IsPartition(forests.areas) && Partition.Covered(forests.areas) == Partition.Covered(p.forests.areas)
    requires Partition.IsPartition(meadows.areas) && Partition.Covered(meadows.areas) == Partition.Covered(p.meadows.areas)
    requires Partition.IsPartition(rivers.areas) && Partition.Covered(rivers.areas) == Partition.Covered(p.rivers.areas)
    requires Partition.IsPartition(riverSystems.areas) && Partition.Covered(riverSystems.areas) == Partition.Covered(p.riverSystems.areas)
    ensures ZonePartitions(forests, meadows, rivers, riverSystems).IsPartitions()
    ensures ZonePartitions(forests, meadows, rivers, riverSystems).Zones() == p.Zones()
  {
  }

  /** clearGatherers keeps the four partitions and their zones, and the forest's zones are then unoccupied. */
  lemma ClearGatherersKeepsPartitions(p: ZonePartitions, forest: Area, zone: Zone)
    requires p.IsPartitions() && p.ClearGatherers(forest).Success?
    ensures var q := p.ClearGatherers(forest).value;
      && q.IsPartitions() && q.Zones() == p.Zones()
      && (zone in forest.zones ==> !q.forests.AreaContaining(zone).value.IsOccupied())
  {
    Partition.RemoveAllOccupantsOfKeepsPartition(p.forests, forest, zone);
  }

  /** clearFishers keeps the four partitions and their zones, and the river's zones are then unoccupied. */
  lemma ClearFishersKeepsPartitions(p: ZonePartitions, river: Area, zone: Zone)
    requires p.IsPartitions() && p.ClearFishers(river).Success?
    ensures var q := p.ClearFishers(river).value;
      && q.IsPartitions() && q.Zones() == p.Zones()
      && (zone in river.zones ==> !q.rivers.AreaContaining(zone).value.IsOccupied())
  {
    Partition.RemoveAllOccupantsOfKeepsPartition(p.rivers, river, zone);
  }

  /** The singletons of a zone new to the partitions keep them partitions, adding the zone. */
  lemma AddZoneKeepsPartitions(p: ZonePartitions, zone: Zone, counts: seq<int>)
    requires |counts| == 10
    requires p.IsPartitions() && zone !in p.Zones() && AddZone(p, zone, counts).Success?
    ensures var q := AddZone(p, zone, counts).value;
      && q.IsPartitions() && q.Zones() == p.Zones() + {zone}
      && Partition.Covered(q.riverSystems.areas) ==
           Partition.Covered(p.riverSystems.areas) + (if zone.IsWater() then {zone} else {})
  {
    match zone
    case ForestZone(_) => ForestSingletonKeepsPartitions(p, zone, counts);
    case MeadowZone(_) => MeadowSingletonKeepsPartitions(p, zone, counts);
    case RiverZone(_) => RiverSingletonKeepsPartitions(p, zone, counts);
    case LakeZone(_) => LakeSingletonKeepsPartitions(p, zone, counts);
  }

  lemma ForestSingletonKeepsPartitions(p: ZonePartitions, zone: Zone, counts: seq<int>)
    requires |counts| == 10 && zone.ForestZone?
    requires p.IsPartitions() && zone !in p.Zones() && AddZone(p, zone, counts).Success?
    ensures AddZone(p, zone, counts).value.IsPartitions()
    ensures AddZone(p, zone, counts).value.Zones() == p.Zones() + {zone}
    ensures AddZone(p, zone, counts).value.riverSystems == p.riverSystems
  {
    var c := OpenOf(zone, counts);
    var q := AddZone(p, zone, counts).value;
    assert q == p.(forests := p.forests.AddSingleton(zone, c).value);
    Partition.AddSingletonKeepsPartition(p.forests, zone, c);
    ZonesGrown(p, q, zone);
  }

  lemma MeadowSingletonKeepsPartitions(p: ZonePartitions, zone: Zone, counts: seq<int>)
    requires |counts| == 10 && zone.MeadowZone?
    requires p.IsPartitions() && zone !in p.Zones() && AddZone(p, zone, counts).Success?
    ensures AddZone(p, zone, counts).value.IsPartitions()
    ensures AddZone(p, zone, counts).value.Zones() == p.Zones() + {zone}
    ensures AddZone(p, zone, counts).value.riverSystems == p.riverSystems
  {
    var c := OpenOf(zone, counts);
    var q := AddZone(p, zone, counts).value;
    assert q == p.(meadows := p.meadows.AddSingleton(zone, c).value);
    Partition.AddSingletonKeepsPartition(p.meadows, zone, c);
    ZonesGrown(p, q, zone);
  }

  lemma RiverSingletonKeepsPartitions(p: ZonePartitions, zone: Zone, counts: seq<int>)
    requires |counts| == 10 && zone.RiverZone?
    requires p.IsPartitions() && zone !in p.Zones() && AddZone(p, zone, counts).Success?
    ensures AddZone(p, zone, counts).value.IsPartitions()
    ensures AddZone(p, zone, counts).value.Zones() == p.Zones() + {zone}
    ensures Partition.Covered(AddZone(p, zone, counts).value.riverSystems.areas) == Partition.Covered(p.riverSystems.areas) + {zone}
  {
    var c := OpenOf(zone, counts);
    var own := OwnOpenOf(zone, counts);
    var q := AddZone(p, zone, counts).value;
    assert q == p.(rivers := p.rivers.AddSingleton(zone, own).value, riverSystems := p.riverSystems.AddSingleton(zone, c).value);
    RiverSingletonsKeepPartitions(p, zone, own, c, q);
  }

  lemma RiverSingletonsKeepPartitions(p: ZonePartitions, zone: Zone, own: int, c: int, q: ZonePartitions)
    requires p.IsPartitions() && zone !in p.Zones() && own >= 0 && c >= 0
    requires q == p.(rivers := p.rivers.AddSingleton(zone, own).value, riverSystems := p.riverSystems.AddSingleton(zone, c).value)
    ensures q.IsPartitions() && q.Zones() == p.Zones() + {zone}
    ensures Partition.Covered(q.riverSystems.areas) == Partition.Covered(p.riverSystems.areas) + {zone}
  {
    RiverSingletonsAdded(p, zone, own, c, q);
    ZonesGrown(p, q, zone);
  }

  lemma RiverSingletonsAdded(p: ZonePartitions, zone: Zone, own: int, c: int, q: ZonePartitions)
    requires p.IsPartitions() && zone !in p.Zones() && own >= 0 && c >= 0
    requires q == p.(rivers := p.rivers.AddSingleton(zone, own).value, riverSystems := p.riverSystems.AddSingleton(zone, c).value)
    ensures q.IsPartitions()
    ensures Partition.Covered(q.rivers.areas) == Partition.Covered(p.rivers.areas) + {zone}
    ensures Partition.Covered(q.riverSystems.areas) == Partition.Covered(p.riverSystems.areas) + {zone}
  {
    Partition.AddSingletonKeepsPartition(p.rivers, zone, own);
    Partition.AddSingletonKeepsPartition(p.riverSystems, zone, c);
  }

  lemma LakeSingletonKeepsPartitions(p: ZonePartitions, zone: Zone, counts: seq<int>)
    requires |counts| == 10 && zone.LakeZone?
    requires p.IsPartitions() && zone !in p.Zones() && AddZone(p, zone, counts).Success?
    ensures AddZone(p, zone, counts).value.IsPartitions()
    ensures AddZone(p, zone, counts).value.Zones() == p.Zones() + {zone}
    ensures Partition.Covered(AddZone(p, zone, counts).value.riverSystems.areas) == Partition.Covered(p.riverSystems.areas) + {zone}
  {
    var c := OpenOf(zone, counts);
    var q := AddZone(p, zone, counts).value;
    assert q == p.(riverSystems := p.riverSystems.AddSingleton(zone, c).value);
    Partition.AddSingletonKeepsPartition(p.riverSystems, zone, c);
    ZonesGrown(p, q, zone);
  }

  lemma PlusNothing<T>(a: set<T>)
    ensures a + {} == a
  {
  }

  /** The zones of the four partitions grow by a zone when some of them grow by it and the others keep theirs. */
  lemma ZonesGrown(p: ZonePartitions, q: ZonePartitions, zone: Zone)
    requires Partition.Covered(q.forests.areas) in {Partition.Covered(p.forests.areas), Partition.Covered(p.forests.areas) + {zone}}
    requires Partition.Covered(q.meadows.areas) in {Partition.Covered(p.meadows.areas), Partition.Covered(p.meadows.areas) + {zone}}
    requires Partition.Covered(q.rivers.areas) in {Partition.Covered(p.rivers.areas), Partition.Covered(p.rivers.areas) + {zone}}
    requires Partition.Covered(q.riverSystems.areas) in {Partition.Covered(p.riverSystems.areas), Partition.Covered(p.riverSystems.areas) + {zone}}
    requires zone in q.Zones()
    ensures q.Zones() == p.Zones() + {zone}
  {
  }


  /** The singletons of distinct zones new to the partitions keep them partitions, adding the zones. */
  lemma {:induction false} AddSingletonsKeepsPartitions(p: ZonePartitions, zones: seq<Zone>, counts: seq<int>)
    requires |counts| == 10
    requires p.IsPartitions() && NoDuplicates(zones) && (forall z :: z in zones ==> z !in p.Zones())
    requires AddSingletons(p, zones, counts).Success?
    ensures var q := AddSingletons(p, zones, counts).value;
      && q.IsPartitions() && q.Zones() == p.Zones() + Elements(zones)
      && Partition.Covered(q.riverSystems.areas) == Partition.Covered(p.riverSystems.areas) + Waters(zones)
    decreases |zones|
  {
    if zones == [] {
      PlusNothing(p.Zones());
      PlusNothing(Partition.Covered(p.riverSystems.areas));
    } else {
      var z0 := zones[0];
      var q1 := AddZone(p, z0, counts).value;
      AddZoneKeepsPartitions(p, z0, counts);
      assert NoDuplicates(zones[1..]);
      forall z | z in zones[1..]
        ensures z !in q1.Zones()
      {
        var k :| 1 <= k < |zones| && zones[k] == z;
        assert z in zones && z != z0;
      }
      AddSingletonsKeepsPartitions(q1, zones[1..], counts);
      ElementsAndWatersSplit(zones);
      PlusAssociates(p.Zones(), {z0}, Elements(zones[1..]));
      PlusAssociates(Partition.Covered(p.riverSystems.areas), if z0.IsWater() then {z0} else {}, Waters(zones[1..]));
    }
  }

  /** The rivers and lakes among the zones. */
  function Waters(zones: seq<Zone>): set<Zone> {
    set z | z in zones && z.IsWater()
  }

  lemma ElementsAndWatersSplit(zones: seq<Zone>)
    requires zones != []
    ensures Elements(zones) == {zones[0]} + Elements(zones[1..])
    ensures Waters(zones) == (if zones[0].IsWater() then {zones[0]} else {}) + Waters(zones[1..])
  {
    assert forall z :: z in zones <==> z == zones[0] || z in zones[1..];
  }

  lemma PlusAssociates<T>(a: set<T>, b: set<T>, c: set<T>)
    ensures a + b + c == a + (b + c)
  {
  }

  /**
   * Joining rivers with their lakes keeps the river systems a partition over the same zones,
   * never separates zones, and leaves each river of the zones that ends in a lake in one area
   * with that lake.
   */
  lemma {:induction false} UniteRiversWithLakesJoins(p: ZonePartitions, zones: seq<Zone>)
    requires Partition.IsPartition(p.riverSystems.areas) && UniteRiversWithLakes(p, zones).Success?
    ensures var q := UniteRiversWithLakes(p, zones).value;
      && Partition.IsPartition(q.riverSystems.areas)
      && Partition.Covered(q.riverSystems.areas) == Partition.Covered(p.riverSystems.areas)
      && (forall a, b :: Partition.Together(p.riverSystems, a, b) ==> Partition.Together(q.riverSystems, a, b))
      && (forall z :: z in zones && z.RiverZone? && z.river.HasLake() ==>
            Partition.Together(q.riverSystems, z, LakeZone(z.river.lake.value)))
    decreases |zones|
  {
    if zones != [] {
      var z0 := zones[0];
      var p1 := UniteRiverWithLake(p, z0).value;
      if z0.RiverZone? && z0.river.HasLake() {
        var lake := LakeZone(z0.river.lake.value);
        Partition.UnionKeepsPartition(p.riverSystems, z0, lake);
        forall a, b | Partition.Together(p.riverSystems, a, b)
          ensures Partition.Together(p1.riverSystems, a, b)
        {
          Partition.UnionKeepsTogether(p.riverSystems, z0, lake, a, b);
        }
        assert Partition.Together(p1.riverSystems, z0, lake);
      }
      UniteRiversWithLakesJoins(p1, zones[1..]);
      assert forall z :: z in zones ==> z == z0 || z in zones[1..];
    }
  }

  /**
   * addTile on partitions that do not hold the tile's zones keeps them partitions, adds exactly
   * the tile's zones (its rivers and lakes to the river systems), and leaves each river ending
   * in a lake in one river system with that lake.
   */
  lemma AddTileKeepsPartitions(p: ZonePartitions, tile: Tile)
    requires p.IsPartitions() && (forall z :: z in tile.Zones() ==> z !in p.Zones())
    requires p.AddTile(tile).Success?
    ensures var q := p.AddTile(tile).value;
      && q.IsPartitions() && q.Zones() == p.Zones() + Elements(tile.Zones())
      && Partition.Covered(q.riverSystems.areas) == Partition.Covered(p.riverSystems.areas) + Waters(tile.Zones())
      && (forall z :: z in tile.Zones() && z.RiverZone? && z.river.HasLake() ==>
            Partition.Together(q.riverSystems, z, LakeZone(z.river.lake.value)))
  {
    var middle := AddSingletons(p, tile.Zones(), OpenConnections(tile)).value;
    AddSingletonsKeepsPartitions(p, tile.Zones(), OpenConnections(tile));
    UniteRiversWithLakesJoins(middle, tile.Zones());
  }

  /** ZonePartitions.Builder: four partition builders, one per partition. */
  class Builder {
    const forests: Partition.Builder
    const meadows: Partition.Builder
    const rivers: Partition.Builder
    const riverSystems: Partition.Builder

    /** The four builders are distinct objects. */
    predicate Valid()
      reads this
    {
      && forests != meadows && forests != rivers && forests != riverSystems
      && meadows != rivers && meadows != riverSystems && rivers != riverSystems
    }

    /** The partitions the builder holds. */
    function Value(): ZonePartitions
      reads this, forests, meadows, rivers, riverSystems
    {
      ZonePartitions(
        Partition.ZonePartition(forests.areas), Partition.ZonePartition(meadows.areas),
        Partition.ZonePartition(rivers.areas), Partition.ZonePartition(riverSystems.areas))
    }

    constructor(initial: ZonePartitions)
      ensures Valid() && Value() == initial
      ensures fresh(forests) && fresh(meadows) && fresh(rivers) && fresh(riverSystems)
    {
      forests := new Partition.Builder(initial.forests);
      meadows := new Partition.Builder(initial.meadows);
      rivers := new Partition.Builder(initial.rivers);
      riverSystems := new Partition.Builder(initial.riverSystems);
    }

    /**
     * addTile: counts the open connections in an array of ten, then adds the singleton areas,
     * then joins rivers with their lakes. The three stages are separate methods here.
     */
    method AddTile(tile: Tile) returns (r: Result<(), Thrown>)
      requires Valid()
      modifies forests, meadows, rivers, riverSystems
      ensures r.Success? <==> old(Value()).AddTile(tile).Success?
      ensures r.Success? ==> Value() == old(Value()).AddTile(tile).value
      ensures r.Failure? ==> r.error == IllegalArgument
    {
      ghost var start := Value();
      var counts := CountOpenConnections(tile);
      var added := AddSingletonsOf(tile.Zones(), counts);
      if added.Failure? {
        return Failure(added.error);
      }
      ghost var middle := AddSingletons(start, tile.Zones(), counts).value;
      assert Value() == middle;
      r := UniteRiversWithLakesOf(tile.Zones());
    }

    /** The nested loops of addTile over the sides and their zones. */
    static method CountOpenConnections(tile: Tile) returns (counts: seq<int>)
      ensures counts == OpenConnections(tile)
    {
      var openConnectionsPerZone := new int[10](_ => 0);
      var sides := tile.Sides();
      for i := 0 to 4
        invariant forall l :: 0 <= l < 10 ==> openConnectionsPerZone[l] == OpenCount(SideOccurrences(sides[..i]), l)
      {
        CountSide(openConnectionsPerZone, SideOccurrences(sides[..i]), sides[i].Zones());
        assert sides[..i + 1][..i] == sides[..i];
      }
      assert sides[..4] == sides;
      counts := openConnectionsPerZone[..];
    }

    /** The inner loop of addTile over the zones of one side, after the occurrences of the sides before it. */
    static method CountSide(openConnectionsPerZone: array<int>, ghost before: seq<Zone>, zones: seq<Zone>)
      requires openConnectionsPerZone.Length == 10
      requires forall l :: 0 <= l < 10 ==> openConnectionsPerZone[l] == OpenCount(before, l)
      modifies openConnectionsPerZone
      ensures forall l :: 0 <= l < 10 ==> openConnectionsPerZone[l] == OpenCount(before + zones, l)
    {
      assert before + zones[..0] == before;
      for j := 0 to |zones|
        invariant forall l :: 0 <= l < 10 ==> openConnectionsPerZone[l] == OpenCount(before + zones[..j], l)
      {
        CountOccurrence(openConnectionsPerZone, zones[j]);
        OpenCountStep(before, zones, j);
      }
      assert zones[..|zones|] == zones;
    }

    /** One occurrence of a zone on a side, counted into the array. */
    static method CountOccurrence(openConnectionsPerZone: array<int>, zone: Zone)
      requires openConnectionsPerZone.Length == 10
      modifies openConnectionsPerZone
      ensures forall l :: 0 <= l < 10 ==> openConnectionsPerZone[l] == old(openConnectionsPerZone[l]) + Contribution(zone, l)
    {
      ZoneIdsOfZone(zone);
      var localId := zone.LocalId();
      openConnectionsPerZone[localId] := openConnectionsPerZone[localId] + 1;
      if zone.RiverZone? && zone.river.HasLake() {
        ZoneIdSplits(zone.river.lake.value.id);
        var lakeLocalId := LocalIdOf(zone.river.lake.value.id);
        openConnectionsPerZone[lakeLocalId] := openConnectionsPerZone[lakeLocalId] + 1;
        openConnectionsPerZone[localId] := openConnectionsPerZone[localId] + 1;
      }
    }

    /** The singleton areas of the tile's zones, added in the order of the zones. */
    method AddSingletonsOf(tileZones: seq<Zone>, counts: seq<int>) returns (r: Result<(), Thrown>)
      requires Valid() && |counts| == 10
      modifies forests, meadows, rivers, riverSystems
      ensures r.Success? <==> AddSingletons(old(Value()), tileZones, counts).Success?
      ensures r.Success? ==> Value() == AddSingletons(old(Value()), tileZones, counts).value
      ensures r.Failure? ==> r.error == IllegalArgument
    {
      ghost var start := Value();
      for k := 0 to |tileZones|
        invariant AddSingletons(start, tileZones, counts) == AddSingletons(Value(), tileZones[k..], counts)
      {
        assert tileZones[k..][1..] == tileZones[k + 1..];
        var added := AddZoneOf(tileZones[k], counts);
        if added.Failure? {
          return added;
        }
      }
      assert tileZones[|tileZones|..] == [];
      return Success(());
    }

    /** The singleton areas of one zone of the tile. */
    method AddZoneOf(zone: Zone, counts: seq<int>) returns (r: Result<(), Thrown>)
      requires Valid() && |counts| == 10
      modifies forests, meadows, rivers, riverSystems
      ensures r.Success? <==> AddZone(old(Value()), zone, counts).Success?
      ensures r.Success? ==> Value() == AddZone(old(Value()), zone, counts).value
      ensures r.Failure? ==> r.error == IllegalArgument
    {
      ZoneIdsOfZone(zone);
      var c := counts[zone.LocalId()];
      match zone {
        case ForestZone(_) =>
          r := forests.AddSingleton(zone, c);
        case MeadowZone(_) =>
          r := meadows.AddSingleton(zone, c);
        case RiverZone(river) =>
          r := rivers.AddSingleton(zone, if river.HasLake() then c - 1 else c);
          if r.Success? {
            // the river's count is not negative once the rivers accepted it, so this one succeeds
            r := riverSystems.AddSingleton(zone, c);
          }
        case LakeZone(_) =>
          r := riverSystems.AddSingleton(zone, c);
      }
    }

    /** Each river of the tile that ends in a lake is joined with it in the river systems. */
    method UniteRiversWithLakesOf(tileZones: seq<Zone>) returns (r: Result<(), Thrown>)
      requires Valid()
      modifies forests, meadows, rivers, riverSystems
      ensures r.Success? <==> UniteRiversWithLakes(old(Value()), tileZones).Success?
      ensures r.Success? ==> Value() == UniteRiversWithLakes(old(Value()), tileZones).value
      ensures r.Failure? ==> r.error == IllegalArgument
    {
      ghost var start := Value();
      for k := 0 to |tileZones|
        invariant UniteRiversWithLakes(start, tileZones) == UniteRiversWithLakes(Value(), tileZones[k..])
      {
        assert tileZones[k..][1..] == tileZones[k + 1..];
        var zone := tileZones[k];
        if zone.RiverZone? && zone.river.HasLake() {
          var _ :- riverSystems.Union(zone, LakeZone(zone.river.lake.value));
        }
      }
      assert tileZones[|tileZones|..] == [];
      return Success(());
    }

    /** connectSides, on the builders. */
    method ConnectSides(s1: TileSide, s2: TileSide) returns (r: Result<(), Thrown>)
      requires Valid()
      modifies forests, meadows, rivers, riverSystems
      ensures r.Success? <==> old(Value()).ConnectSides(s1, s2).Success?
      ensures r.Success? ==> Value() == old(Value()).ConnectSides(s1, s2).value
      ensures r.Failure? ==> r.error == IllegalArgument
    {
      match s1 {
        case MeadowSide(m1) =>
          if !s2.MeadowSide? {
            return Failure(IllegalArgument);
          }
          var _ :- meadows.Union(MeadowZone(m1), MeadowZone(s2.meadow));
        case ForestSide(f1) =>
          if !s2.ForestSide? {
            return Failure(IllegalArgument);
          }
          var _ :- forests.Union(ForestZone(f1), ForestZone(s2.forest));
        case RiverSide(m1, r1, m2) =>
          if !s2.RiverSide? {
            return Failure(IllegalArgument);
          }
          var _ :- rivers.Union(RiverZone(r1), RiverZone(s2.river));
          var _ :- riverSystems.Union(RiverZone(r1), RiverZone(s2.river));
          var _ :- meadows.Union(MeadowZone(m1), MeadowZone(s2.meadow2));
          var _ :- meadows.Union(MeadowZone(m2), MeadowZone(s2.meadow1));
      }
      return Success(());
    }

    /** addInitialOccupant, on the builders. */
    method AddInitialOccupant(occupant: PlayerColor, kind: OccupantKind, zone: Zone) returns (r: Result<(), Thrown>)
      requires Valid()
      modifies forests, meadows, rivers, riverSystems
      ensures r.Success? <==> old(Value()).AddInitialOccupant(occupant, kind, zone).Success?
      ensures r.Success? ==> Value() == old(Value()).AddInitialOccupant(occupant, kind, zone).value
      ensures r.Failure? ==> r.error == IllegalArgument
    {
      if zone.MeadowZone? && kind == Pawn {
        r := meadows.AddInitialOccupant(zone, occupant);
      } else if zone.ForestZone? && kind == Pawn {
        r := forests.AddInitialOccupant(zone, occupant);
      } else if zone.RiverZone? && kind == Pawn {
        r := rivers.AddInitialOccupant(zone, occupant);
      } else if zone.IsWater() && kind == Hut {
        r := riverSystems.AddInitialOccupant(zone, occupant);
      } else {
        r := Failure(IllegalArgument);
      }
    }

    /** removePawn, on the builders. */
    method RemovePawn(occupant: PlayerColor, zone: Zone) returns (r: Result<(), Thrown>)
      requires Valid()
      modifies forests, meadows, rivers, riverSystems
      ensures r.Success? <==> old(Value()).RemovePawn(occupant, zone).Success?
      ensures r.Success? ==> Value() == old(Value()).RemovePawn(occupant, zone).value
      ensures r.Failure? ==> r.error == IllegalArgument
    {
      match zone {
        case MeadowZone(_) => r := meadows.RemoveOccupant(zone, occupant);
        case ForestZone(_) => r := forests.RemoveOccupant(zone, occupant);
        case RiverZone(_) => r := rivers.RemoveOccupant(zone, occupant);
        case LakeZone(_) => r := Failure(IllegalArgument);
      }
    }

    method ClearGatherers(forest: Area) returns (r: Result<(), Thrown>)
      requires Valid()
      modifies forests, meadows, rivers, riverSystems
      ensures r.Success? <==> old(Value()).ClearGatherers(forest).Success?
      ensures r.Success? ==> Value() == old(Value()).ClearGatherers(forest).value
      ensures r.Failure? ==> r.error == IllegalArgument
    {
      r := forests.RemoveAllOccupantsOf(forest);
    }

    method ClearFishers(river: Area) returns (r: Result<(), Thrown>)
      requires Valid()
      modifies forests, meadows, rivers, riverSystems
      ensures r.Success? <==> old(Value()).ClearFishers(river).Success?
      ensures r.Success? ==> Value() == old(Value()).ClearFishers(river).value
      ensures r.Failure? ==> r.error == IllegalArgument
    {
      r := rivers.RemoveAllOccupantsOf(river);
    }

    method Build() returns (p: ZonePartitions)
      requires Valid()
      ensures p == Value()
    {
      var f := forests.Build();
      var m := meadows.Build();
      var rv := rivers.Build();
      var rs := riverSystems.Build();
      p := ZonePartitions(f, m, rv, rs);
    }
  }

  /** One more occurrence adds its contribution to every count. */
  lemma OpenCountStep(prefix: seq<Zone>, zones: seq<Zone>, j: int)
    requires 0 <= j < |zones|
    ensures forall l :: OpenCount(prefix + zones[..j + 1], l) == OpenCount(prefix + zones[..j], l) + Contribution(zones[j], l)
  {
    var longer := prefix + zones[..j + 1];
    assert longer[..|longer| - 1] == prefix + zones[..j];
    assert longer[|longer| - 1] == zones[j];
  }
}
