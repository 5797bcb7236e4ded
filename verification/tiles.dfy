/**
 * Tiles, their sides, occupants, and tiles placed on the board. A tile's set of zones is
 * modelled as a sequence without duplicates: the zones of the north, east, south and west
 * sides in that order, then the lakes of their rivers.
 */
module Tiles {
  import opened Wrappers
  import opened Collections
  import opened Geometry
  import opened Zones

  /** A tile side: a forest, a meadow, or a river between two meadows (clockwise). */
  datatype TileSide =
    | ForestSide(forest: Forest)
    | MeadowSide(meadow: Meadow)
    | RiverSide(meadow1: Meadow, river: River, meadow2: Meadow)
  {
    /** zones: the side's zones, clockwise. */
    function Zones(): (zs: seq<Zone>)
      ensures ForestSide? ==> zs == [ForestZone(forest)]
      ensures MeadowSide? ==> zs == [MeadowZone(meadow)]
      ensures RiverSide? ==> zs == [MeadowZone(meadow1), RiverZone(river), MeadowZone(meadow2)]
    {
      match this
      case ForestSide(f) => [ForestZone(f)]
      case MeadowSide(m) => [MeadowZone(m)]
      case RiverSide(m1, r, m2) => [MeadowZone(m1), RiverZone(r), MeadowZone(m2)]
    }

    /** isSameKindAs: the other side is the same variant. */
    predicate IsSameKindAs(that: TileSide) {
      match this
      case ForestSide(_) => that.ForestSide?
      case MeadowSide(_) => that.MeadowSide?
      case RiverSide(_, _, _) => that.RiverSide?
    }
  }

  /** isSameKindAs holds exactly between sides of the same variant: reflexive, symmetric, transitive. */
  lemma SameKindIsEquivalence(a: TileSide, b: TileSide, c: TileSide)
    ensures a.IsSameKindAs(b) <==> (a.ForestSide? && b.ForestSide?) || (a.MeadowSide? && b.MeadowSide?)
                                   || (a.RiverSide? && b.RiverSide?)
    ensures a.IsSameKindAs(a)
    ensures a.IsSameKindAs(b) ==> b.IsSameKindAs(a)
    ensures a.IsSameKindAs(b) && b.IsSameKindAs(c) ==> a.IsSameKindAs(c)
  {
  }

  datatype TileKind = Start | Normal | Menhir

  datatype Tile = Tile(id: nat, kind: TileKind, n: TileSide, e: TileSide, s: TileSide, w: TileSide) {
    /** sides: [n, e, s, w], indexed by direction ordinal. */
    function Sides(): (r: seq<TileSide>)
      ensures |r| == 4 && r[0] == n && r[1] == e && r[2] == s && r[3] == w
    {
      [n, e, s, w]
    }

    /** sideZones: the zones of the four sides, each once. */
    function SideZones(): (zs: seq<Zone>)
      ensures NoDuplicates(zs)
    {
      Distinct(n.Zones() + e.Zones() + s.Zones() + w.Zones())
    }

    /** zones: the side zones, then the lake of every side river that has one. */
    function Zones(): (zs: seq<Zone>)
      ensures NoDuplicates(zs)
    {
      DistinctAfter(LakesOf(SideZones()), SideZones())
    }
  }

  /** The lakes attached to the rivers among the zones, in order. */
  function LakesOf(zs: seq<Zone>): (lakes: seq<Zone>)
    ensures forall l :: l in lakes ==> l.LakeZone?
    ensures forall l: Lake :: LakeZone(l) in lakes <==> exists z :: z in zs && z.RiverZone? && z.river.lake == Some(l)
  {
    if zs == [] then []
    else
      var rest := LakesOf(zs[1..]);
      assert forall z :: z in zs[1..] ==> z in zs;
      assert forall z :: z in zs ==> z == zs[0] || z in zs[1..];
      if zs[0].RiverZone? && zs[0].river.lake.Some? then [LakeZone(zs[0].river.lake.value)] + rest else rest
  }

  /** Every side's zones are side zones, and every side zone lies on some side. */
  lemma SideZonesAreUnionOfSides(t: Tile)
    ensures Elements(t.SideZones()) == Elements(t.n.Zones()) + Elements(t.e.Zones()) + Elements(t.s.Zones()) + Elements(t.w.Zones())
  {
    var all := t.n.Zones() + t.e.Zones() + t.s.Zones() + t.w.Zones();
    assert Elements(all) == Elements(t.n.Zones()) + Elements(t.e.Zones()) + Elements(t.s.Zones()) + Elements(t.w.Zones());
  }

  /** The side zones are zones of the tile, and every other zone is a lake of a side river. */
  lemma SideZonesAreZones(t: Tile)
    ensures Elements(t.SideZones()) <= Elements(t.Zones())
    ensures forall z :: z in t.Zones() && z !in t.SideZones() ==>
      z.LakeZone? && exists r :: r in t.SideZones() && r.RiverZone? && r.river.lake == Some(z.lake)
    ensures forall r :: r in t.SideZones() && r.RiverZone? && r.river.HasLake() ==> LakeZone(r.river.lake.value) in t.Zones()
  {
    var lakes := LakesOf(t.SideZones());
    assert Elements(t.Zones()) == Elements(lakes) + Elements(t.SideZones());
    forall r | r in t.SideZones() && r.RiverZone? && r.river.HasLake()
      ensures LakeZone(r.river.lake.value) in t.Zones()
    {
      assert LakeZone(r.river.lake.value) in lakes;
      assert LakeZone(r.river.lake.value) in Elements(t.Zones());
    }
    forall z | z in t.Zones() && z !in t.SideZones()
      ensures z.LakeZone? && exists r :: r in t.SideZones() && r.RiverZone? && r.river.lake == Some(z.lake)
    {
      assert z in Elements(t.Zones());
      assert z in lakes;
    }
  }

  datatype OccupantKind = Pawn | Hut {
    function Ordinal(): (i: nat)
      ensures i < 2
    {
      if Pawn? then 0 else 1
    }
  }

  /** Occupant.Kind.ALL. */
  const AllOccupantKinds: seq<OccupantKind> := [Pawn, Hut]

  /** Occupants are values: two are equal exactly when kind and zone identifier are. */
  datatype Occupant = Occupant(kind: OccupantKind, zoneId: nat)

  /** The Occupant constructor: a negative zone identifier is an IllegalArgumentException. */
  function NewOccupant(kind: OccupantKind, zoneId: int): (r: Result<Occupant, Thrown>)
    ensures r.Success? <==> zoneId >= 0
    ensures r.Success? ==> r.value.kind == kind && r.value.zoneId == zoneId
    ensures r.Failure? ==> r.error == IllegalArgument
  {
    if zoneId >= 0 then Success(Occupant(kind, zoneId)) else Failure(IllegalArgument)
  }

  /** occupantsCount: each player owns 5 pawns and 3 huts. */
  function OccupantsCount(kind: OccupantKind): (n: nat)
    ensures kind == Pawn ==> n == 5
    ensures kind == Hut ==> n == 3
  {
    match kind
    case Pawn => 5
    case Hut => 3
  }

  /** ALL lists PAWN then HUT, by ordinal. */
  lemma AllOccupantKindsByOrdinal(k: OccupantKind)
    ensures |AllOccupantKinds| == 2 && AllOccupantKinds[k.Ordinal()] == k
  {
  }

  /** A tile on the board: who placed it (the starting tile has no placer), how, where, and its occupant. */
  datatype PlacedTile = PlacedTile(tile: Tile, placer: Option<PlayerColor>, rotation: Rotation, pos: Pos, occupant: Option<Occupant>) {
    function Id(): nat {
      tile.id
    }

    function Kind(): TileKind {
      tile.kind
    }

    /** side: the tile side that faces `direction` once the tile is rotated. */
    function Side(direction: Direction): TileSide {
      tile.Sides()[direction.Rotated(rotation.Negated()).Ordinal()]
    }

    /** zoneWithId: the first of the tile's zones with that identifier; IllegalArgumentException if none. */
    function ZoneWithId(id: int): (r: Result<Zone, Thrown>)
      ensures r.Success? ==> r.value in tile.Zones() && r.value.Id() == id
      ensures r.Failure? <==> forall z :: z in tile.Zones() ==> z.Id() != id
      ensures r.Failure? ==> r.error == IllegalArgument
    {
      FirstWithId(tile.Zones(), id)
    }

    /** specialPowerZone: the first zone that has a special power, or null. */
    function SpecialPowerZone(): (r: Option<Zone>)
      ensures r.Some? ==> r.value in tile.Zones() && r.value.SpecialPower().Some?
      ensures r.None? <==> forall z :: z in tile.Zones() ==> z.SpecialPower().None?
    {
      FirstWithPower(tile.Zones())
    }

    /** forestZones: the tile's forest zones. */
    function ForestZones(): seq<Forest> {
      ForestsOf(tile.Zones())
    }

    /** riverZones: the tile's river zones. */
    function RiverZones(): seq<River> {
      RiversOf(tile.Zones())
    }

    /** meadowZones: the tile's meadow zones. */
    function MeadowZones(): seq<Meadow> {
      MeadowsOf(tile.Zones())
    }

    /**
     * potentialOccupants: none without a placer; otherwise a pawn on every side zone, a
     * hut on every side river without a lake, and a hut on every lake.
     */
    function PotentialOccupants(): set<Occupant> {
      if placer.None? then {}
      else
        (set z | z in tile.SideZones() :: Occupant(Pawn, z.Id()))
        + (set z | z in tile.SideZones() && z.RiverZone? && !z.river.HasLake() :: Occupant(Hut, z.Id()))
        + (set z | z in tile.Zones() && z.LakeZone? :: Occupant(Hut, z.Id()))
    }

    /** withOccupant: the same tile with that occupant; IllegalArgumentException if already occupied. */
    function WithOccupant(o: Occupant): (r: Result<PlacedTile, Thrown>)
      ensures r.Success? <==> occupant.None?
      ensures r.Success? ==> r.value == this.(occupant := Some(o))
    {
      if occupant.None? then Success(this.(occupant := Some(o))) else Failure(IllegalArgument)
    }

    /** withNoOccupant: the same tile without occupant. */
    function WithNoOccupant(): (r: PlacedTile)
      ensures r.occupant.None? && r.tile == tile && r.placer == placer && r.rotation == rotation && r.pos == pos
    {
      this.(occupant := None)
    }

    /** idOfZoneOccupiedBy: the occupant's zone when it has that kind, else -1. */
    function IdOfZoneOccupiedBy(kind: OccupantKind): (id: int)
      ensures id >= 0 <==> occupant.Some? && occupant.value.kind == kind
      ensures id >= 0 ==> id == occupant.value.zoneId
      ensures id < 0 ==> id == -1
    {
      if occupant.Some? && occupant.value.kind == kind then occupant.value.zoneId else -1
    }
  }

  function FirstWithId(zs: seq<Zone>, id: int): (r: Result<Zone, Thrown>)
    ensures r.Success? ==> r.value in zs && r.value.Id() == id
    ensures r.Failure? <==> forall z :: z in zs ==> z.Id() != id
    ensures r.Failure? ==> r.error == IllegalArgument
  {
    if zs == [] then Failure(IllegalArgument)
    else if zs[0].Id() == id then Success(zs[0])
    else
      assert forall z :: z in zs ==> z == zs[0] || z in zs[1..];
      FirstWithId(zs[1..], id)
  }

  function FirstWithPower(zs: seq<Zone>): (r: Option<Zone>)
    ensures r.Some? ==> r.value in zs && r.value.SpecialPower().Some?
    ensures r.None? <==> forall z :: z in zs ==> z.SpecialPower().None?
  {
    if zs == [] then None
    else if zs[0].SpecialPower().Some? then Some(zs[0])
    else
      assert forall z :: z in zs ==> z == zs[0] || z in zs[1..];
      FirstWithPower(zs[1..])
  }

  function ForestsOf(zs: seq<Zone>): (r: seq<Forest>)
    ensures forall f :: f in r <==> ForestZone(f) in zs
  {
    if zs == [] then []
    else
      assert forall z :: z in zs <==> z == zs[0] || z in zs[1..];
      (if zs[0].ForestZone? then [zs[0].forest] else []) + ForestsOf(zs[1..])
  }

  function RiversOf(zs: seq<Zone>): (r: seq<River>)
    ensures forall v :: v in r <==> RiverZone(v) in zs
  {
    if zs == [] then []
    else
      assert forall z :: z in zs <==> z == zs[0] || z in zs[1..];
      (if zs[0].RiverZone? then [zs[0].river] else []) + RiversOf(zs[1..])
  }

  function MeadowsOf(zs: seq<Zone>): (r: seq<Meadow>)
    ensures forall m :: m in r <==> MeadowZone(m) in zs
  {
    if zs == [] then []
    else
      assert forall z :: z in zs <==> z == zs[0] || z in zs[1..];
      (if zs[0].MeadowZone? then [zs[0].meadow] else []) + MeadowsOf(zs[1..])
  }

  /**
   * side(d) undoes the rotation: the side facing d.rotated(rotation) is the tile's own
   * side d, and a tile placed without rotation shows its sides as they are.
   */
  lemma SideUndoesRotation(p: PlacedTile, d: Direction)
    ensures p.Side(d.Rotated(p.rotation)) == p.tile.Sides()[d.Ordinal()]
    ensures p.rotation == NoTurn ==> p.Side(d) == p.tile.Sides()[d.Ordinal()]
  {
    RotatedInverse(d, p.rotation);
  }

  /**
   * The potential occupants: none without a placer; otherwise each is a pawn on a side
   * zone, or a hut on a side river without a lake or on a lake; and every side zone
   * offers a pawn.
   */
  lemma PotentialOccupantsMeaning(p: PlacedTile, o: Occupant)
    ensures p.placer.None? ==> p.PotentialOccupants() == {}
    ensures p.placer.Some? ==> (o in p.PotentialOccupants() <==>
      (o.kind == Pawn && exists z :: z in p.tile.SideZones() && z.Id() == o.zoneId)
      || (o.kind == Hut && exists z :: z in p.tile.SideZones() && z.RiverZone? && !z.river.HasLake() && z.Id() == o.zoneId)
      || (o.kind == Hut && exists z :: z in p.tile.Zones() && z.LakeZone? && z.Id() == o.zoneId))
  {
    if p.placer.Some? && o in p.PotentialOccupants() {
      if o.kind == Pawn {
        var z :| z in p.tile.SideZones() && Occupant(Pawn, z.Id()) == o;
      }
    }
  }

  /** Taking the occupant away and putting it back gives the tile back. */
  lemma OccupantRoundTrip(p: PlacedTile, o: Occupant)
    ensures p.WithNoOccupant().WithOccupant(o) == Success(p.(occupant := Some(o)))
    ensures p.occupant.Some? ==> p.WithNoOccupant().WithOccupant(p.occupant.value) == Success(p)
    ensures p.WithOccupant(o).Success? ==> p.WithOccupant(o).value.WithNoOccupant() == p
  {
  }
}
