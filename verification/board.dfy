/**
 * The board: a square of 25 by 25 cells stored row by row, the cell indexes of the placed
 * tiles in the order they were placed, the four zone partitions and the cancelled animals.
 * Queries are functions; the four transitions that copy the cells and drive a partitions
 * builder are methods proved to compute the function that specifies them.
 */
module Board {
  import opened Wrappers
  import opened Collections
  import opened Geometry
  import opened Zones
  import opened Tiles
  import opened Areas
  import Partition
  import Partitions

  type ZonePartitions = Partitions.ZonePartitions

  /** REACH: the largest coordinate, in absolute value, of a position on the board. */
  const Reach: int := 12
  /** WIDTH: the number of cells per row and per column. */
  const Width: int := 25
  /** The number of cells. */
  const CellCount: int := 625

  /** getTileIndexFromPos: the row-major index of a position. */
  function IndexOf(pos: Pos): int {
    (pos.y + Reach) * Width + (pos.x + Reach)
  }

  /** isIndexInRange. */
  predicate IsIndexInRange(idx: int) {
    0 <= idx < Width * Width
  }

  /** isPosInBoard. */
  predicate IsPosInBoard(pos: Pos) {
    Abs(pos.x) <= Reach && Abs(pos.y) <= Reach
  }

  /** Positions on the board have indexes in range, and distinct positions distinct indexes. */
  lemma IndexOfOnBoard(p: Pos, q: Pos)
    ensures IsPosInBoard(p) ==> IsIndexInRange(IndexOf(p))
    ensures IsPosInBoard(p) && IsPosInBoard(q) && IndexOf(p) == IndexOf(q) ==> p == q
  {
  }

  /** The four neighbours of a position, in the order of Direction.ALL. */
  function NeighborsOf(pos: Pos): (r: seq<Pos>)
    ensures forall p :: p in r <==> exists d :: d in AllDirections && p == pos.Neighbor(d)
  {
    [pos.Neighbor(N), pos.Neighbor(E), pos.Neighbor(S), pos.Neighbor(W)]
  }

  /** The neighbours of the positions of the given tiles. */
  function CandidatePositions(tiles: seq<PlacedTile>): (r: seq<Pos>)
    ensures forall p :: p in r <==> exists k :: 0 <= k < |tiles| && p in NeighborsOf(tiles[k].pos)
  {
    if tiles == [] then []
    else
      var last := |tiles| - 1;
      var prefix := CandidatePositions(tiles[..last]);
      assert forall k :: 0 <= k < last ==> tiles[..last][k] == tiles[k];
      prefix + NeighborsOf(tiles[last].pos)
  }

  /** The number of tiles with an occupant of that kind placed by that player. */
  function CountOccupants(tiles: seq<PlacedTile>, player: PlayerColor, kind: OccupantKind): (n: nat)
    ensures n <= |tiles|
  {
    if tiles == [] then 0
    else
      CountOccupants(tiles[..|tiles| - 1], player, kind)
      + (if IsOccupantOf(tiles[|tiles| - 1], player, kind) then 1 else 0)
  }

  /** The tile holds an occupant of that kind and was placed by that player. */
  predicate IsOccupantOf(tile: PlacedTile, player: PlayerColor, kind: OccupantKind) {
    tile.occupant.Some? && tile.occupant.value.kind == kind && tile.placer == Some(player)
  }

  /** The positions among the first n tiles that hold such an occupant. */
  function OccupiedIndexes(tiles: seq<PlacedTile>, n: nat, player: PlayerColor, kind: OccupantKind): set<nat>
    requires n <= |tiles|
  {
    set k: nat | k < n && IsOccupantOf(tiles[k], player, kind)
  }

  /** The occupied positions among the first n + 1 tiles: those among the first n, and n itself if occupied. */
  lemma OccupiedIndexesStep(tiles: seq<PlacedTile>, n: nat, player: PlayerColor, kind: OccupantKind)
    requires n < |tiles|
    ensures n !in OccupiedIndexes(tiles, n, player, kind)
    ensures OccupiedIndexes(tiles, n + 1, player, kind)
      == OccupiedIndexes(tiles, n, player, kind) + (if IsOccupantOf(tiles[n], player, kind) then {n} else {})
  {
  }

  /** The occupied positions among the first n tiles depend on those tiles only. */
  lemma OccupiedIndexesPrefix(tiles: seq<PlacedTile>, n: nat, player: PlayerColor, kind: OccupantKind)
    requires n <= |tiles|
    ensures OccupiedIndexes(tiles[..n], n, player, kind) == OccupiedIndexes(tiles, n, player, kind)
  {
    assert forall k :: 0 <= k < n ==> tiles[..n][k] == tiles[k];
  }

  /** Counting occupants counts the tiles that hold one. */
  lemma {:induction false} CountOccupantsIsCardinality(tiles: seq<PlacedTile>, player: PlayerColor, kind: OccupantKind)
    ensures CountOccupants(tiles, player, kind) == |OccupiedIndexes(tiles, |tiles|, player, kind)|
    decreases |tiles|
  {
    if tiles != [] {
      var last := |tiles| - 1;
      CountOccupantsIsCardinality(tiles[..last], player, kind);
      OccupiedIndexesPrefix(tiles, last, player, kind);
      OccupiedIndexesStep(tiles, last, player, kind);
    }
  }

  /** The index of the first tile with that identifier. */
  function IndexWithId(tiles: seq<PlacedTile>, id: int): (r: Result<nat, Thrown>)
    ensures r.Success? <==> exists k :: 0 <= k < |tiles| && tiles[k].Id() == id
    ensures r.Success? ==> r.value < |tiles| && tiles[r.value].Id() == id
    ensures r.Success? ==> forall k :: 0 <= k < r.value ==> tiles[k].Id() != id
    ensures r.Failure? ==> r.error == IllegalArgument
  {
    if tiles == [] then Failure(IllegalArgument)
    else if tiles[0].Id() == id then Success(0)
    else
      var rest :- IndexWithId(tiles[1..], id);
      assert forall k :: 1 <= k < |tiles| ==> tiles[k] == tiles[1..][k - 1];
      Success(rest + 1)
  }

  /** The closed areas, in the partition, of the given zones; a zone in no area is refused. */
  function ClosedAreasOf(partition: Partition.ZonePartition, zones: seq<Zone>): (r: Result<set<Area>, Thrown>)
    ensures r.Success? <==> forall z :: z in zones ==> z in Partition.Covered(partition.areas)
    ensures r.Success? ==> forall a :: a in r.value ==> a.IsClosed() && a in partition.areas
    ensures r.Success? ==> forall a :: a in r.value <==> a.IsClosed() && exists z :: z in zones && partition.AreaContaining(z) == Success(a)
    ensures r.Failure? ==> r.error == IllegalArgument
  {
    if zones == [] then Success({})
    else
      assert forall z :: z in zones <==> z == zones[0] || z in zones[1..];
      var area := partition.AreaContaining(zones[0]);
      if area.Failure? then
        assert zones[0] in zones && zones[0] !in Partition.Covered(partition.areas);
        Failure(IllegalArgument)
      else
        var rest :- ClosedAreasOf(partition, zones[1..]);
        Success(if area.value.IsClosed() then {area.value} + rest else rest)
  }

  /** isTileAdjacentTo: the tile lies in the three-by-three square around the position. */
  predicate IsTileAdjacentTo(centerPos: Pos, toTest: PlacedTile) {
    Abs(centerPos.y - toTest.pos.y) <= 1 && Abs(centerPos.x - toTest.pos.x) <= 1
  }

  datatype Board = Board(
    placedTiles: seq<Option<PlacedTile>>,
    orderedTileIndexes: seq<int>,
    zonePartitions: ZonePartitions,
    cancelledAnimals: set<Animal>)
  {
    /**
     * The representation invariant: 625 cells, the ordered indexes are distinct and name
     * exactly the occupied cells, and every tile sits at the index of its own position.
     */
    predicate Valid() {
      && |placedTiles| == CellCount
      && NoDuplicates(orderedTileIndexes)
      && (forall k :: 0 <= k < |orderedTileIndexes| ==> IsIndexInRange(orderedTileIndexes[k]) && placedTiles[orderedTileIndexes[k]].Some?)
      && (forall i :: 0 <= i < CellCount && placedTiles[i].Some? ==> i in orderedTileIndexes)
      && (forall i :: 0 <= i < CellCount && placedTiles[i].Some? ==> IndexOf(placedTiles[i].value.pos) == i)
    }

    /** Every placed tile lies within the board. */
    predicate AllOnBoard()
      requires Valid()
    {
      forall i :: 0 <= i < CellCount && placedTiles[i].Some? ==> IsPosInBoard(placedTiles[i].value.pos)
    }

    /** isEmpty. */
    predicate IsEmpty() {
      |orderedTileIndexes| == 0
    }

    /** The placed tiles in the order they were placed. */
    function PlacedInOrder(): (r: seq<PlacedTile>)
      requires Valid()
      ensures |r| == |orderedTileIndexes|
      ensures forall k :: 0 <= k < |r| ==> placedTiles[orderedTileIndexes[k]] == Some(r[k])
    {
      seq(|orderedTileIndexes|, k requires 0 <= k < |orderedTileIndexes| => placedTiles[orderedTileIndexes[k]].value)
    }

    /**
     * tileAt: the content of the cell at the position's index, nothing when that index is out
     * of range. The position itself is not checked against the board (see TileAtWraps).
     */
    function TileAt(pos: Pos): (r: Option<PlacedTile>)
      requires Valid()
      ensures r.Some? <==> IsIndexInRange(IndexOf(pos)) && placedTiles[IndexOf(pos)].Some?
      ensures r.Some? ==> IndexOf(r.value.pos) == IndexOf(pos) && r.value in PlacedInOrder()
    {
      var i := IndexOf(pos);
      if IsIndexInRange(i) then
        (if placedTiles[i].Some? then
           var k :| 0 <= k < |orderedTileIndexes| && orderedTileIndexes[k] == i;
           assert PlacedInOrder()[k] == placedTiles[i].value;
           placedTiles[i]
         else None)
      else None
    }

    /** tileWithId: the first placed tile with that identifier; IllegalArgumentException if none. */
    function TileWithId(tileId: int): (r: Result<PlacedTile, Thrown>)
      requires Valid()
      ensures r.Success? <==> exists k :: 0 <= k < |PlacedInOrder()| && PlacedInOrder()[k].Id() == tileId
      ensures r.Success? ==> r.value in PlacedInOrder() && r.value.Id() == tileId
      ensures r.Failure? ==> r.error == IllegalArgument
    {
      var k :- IndexWithId(PlacedInOrder(), tileId);
      Success(PlacedInOrder()[k])
    }

    /** occupants: the occupants of all placed tiles. */
    function Occupants(): (r: set<Occupant>)
      requires Valid()
      ensures forall o :: o in r <==> exists t :: t in PlacedInOrder() && t.occupant == Some(o)
    {
      OccupantsOf(PlacedInOrder())
    }

    /** forestArea: IllegalArgumentException when the zone is in no forest area. */
    function ForestArea(forest: Forest): (r: Result<Area, Thrown>)
      ensures r.Success? ==> r.value in zonePartitions.forests.areas && ForestZone(forest) in r.value.zones
      ensures r.Failure? <==> ForestZone(forest) !in Partition.Covered(zonePartitions.forests.areas)
      ensures r.Failure? ==> r.error == IllegalArgument
    {
      zonePartitions.forests.AreaContaining(ForestZone(forest))
    }

    /** meadowArea: IllegalArgumentException when the zone is in no meadow area. */
    function MeadowArea(meadow: Meadow): (r: Result<Area, Thrown>)
      ensures r.Success? ==> r.value in zonePartitions.meadows.areas && MeadowZone(meadow) in r.value.zones
      ensures r.Failure? <==> MeadowZone(meadow) !in Partition.Covered(zonePartitions.meadows.areas)
      ensures r.Failure? ==> r.error == IllegalArgument
    {
      zonePartitions.meadows.AreaContaining(MeadowZone(meadow))
    }

    /** riverArea: IllegalArgumentException when the zone is in no river area. */
    function RiverArea(river: River): (r: Result<Area, Thrown>)
      ensures r.Success? ==> r.value in zonePartitions.rivers.areas && RiverZone(river) in r.value.zones
      ensures r.Failure? <==> RiverZone(river) !in Partition.Covered(zonePartitions.rivers.areas)
      ensures r.Failure? ==> r.error == IllegalArgument
    {
      zonePartitions.rivers.AreaContaining(RiverZone(river))
    }

    /** riverSystemArea: IllegalArgumentException when the water zone is in no river system. */
    function RiverSystemArea(water: Zone): (r: Result<Area, Thrown>)
      requires water.IsWater()
      ensures r.Success? ==> r.value in zonePartitions.riverSystems.areas && water in r.value.zones
      ensures r.Failure? <==> water !in Partition.Covered(zonePartitions.riverSystems.areas)
      ensures r.Failure? ==> r.error == IllegalArgument
    {
      zonePartitions.riverSystems.AreaContaining(water)
    }

    /** meadowAreas. */
    function MeadowAreas(): set<Area> {
      Elements(zonePartitions.meadows.areas)
    }

    /** riverSystemAreas. */
    function RiverSystemAreas(): set<Area> {
      Elements(zonePartitions.riverSystems.areas)
    }

    /** The zones among the given ones whose tile lies around the position. */
    function AdjacentZones(pos: Pos, zones: seq<Zone>): (r: Result<seq<Zone>, Thrown>)
      requires Valid()
      ensures r.Success? <==> forall z :: z in zones ==> TileWithId(z.TileId()).Success?
      ensures r.Success? ==> forall z :: z in r.value <==> z in zones && IsTileAdjacentTo(pos, TileWithId(z.TileId()).value)
      ensures r.Failure? ==> r.error == IllegalArgument
    {
      if zones == [] then Success([])
      else
        assert forall z :: z in zones <==> z == zones[0] || z in zones[1..];
        var tile :- TileWithId(zones[0].TileId());
        var rest :- AdjacentZones(pos, zones[1..]);
        Success(if IsTileAdjacentTo(pos, tile) then [zones[0]] + rest else rest)
    }

    /**
     * adjacentMeadow: the zones of the meadow's area whose tile lies around the position,
     * with all the area's occupants and no open connection.
     */
    function AdjacentMeadow(pos: Pos, meadow: Meadow): (r: Result<Area, Thrown>)
      requires Valid()
      ensures r.Success? ==> MeadowArea(meadow).Success?
      ensures r.Success? ==> r.value.openConnections == 0 && r.value.IsClosed()
      ensures r.Success? ==> multiset(r.value.occupants) == multiset(MeadowArea(meadow).value.occupants)
      ensures r.Success? ==> AdjacentZones(pos, MeadowArea(meadow).value.zones).Success?
      ensures r.Success? ==> Elements(r.value.zones) == Elements(AdjacentZones(pos, MeadowArea(meadow).value.zones).value)
      ensures r.Failure? ==> r.error == IllegalArgument
    {
      var area :- MeadowArea(meadow);
      var zones :- AdjacentZones(pos, area.zones);
      NewArea(zones, area.occupants, 0)
    }

    /** occupantCount: the number of placed tiles with an occupant of that kind placed by that player. */
    function OccupantCount(player: PlayerColor, kind: OccupantKind): (n: nat)
      requires Valid()
      ensures n == |OccupiedIndexes(PlacedInOrder(), |PlacedInOrder()|, player, kind)|
      ensures n <= |orderedTileIndexes|
    {
      CountOccupantsIsCardinality(PlacedInOrder(), player, kind);
      CountOccupants(PlacedInOrder(), player, kind)
    }

    /** insertionPositions: the free positions of the board next to a placed tile. */
    function InsertionPositions(): (r: set<Pos>)
      requires Valid()
      ensures forall p :: p in r <==>
        && IsPosInBoard(p) && TileAt(p).None?
        && exists k :: 0 <= k < |PlacedInOrder()| && p in NeighborsOf(PlacedInOrder()[k].pos)
    {
      set p | p in CandidatePositions(PlacedInOrder()) && IsPosInBoard(p) && TileAt(p).None?
    }

    /** lastPlacedTile: nothing on an empty board. */
    function LastPlacedTile(): (r: Option<PlacedTile>)
      requires Valid()
      ensures r.None? <==> IsEmpty()
      ensures r.Some? ==> r.value == PlacedInOrder()[|orderedTileIndexes| - 1]
    {
      if IsEmpty() then None else Some(placedTiles[orderedTileIndexes[|orderedTileIndexes| - 1]].value)
    }

    /** forestsClosedByLastTile: the closed forest areas of the last tile's forest zones. */
    function ForestsClosedByLastTile(): (r: Result<set<Area>, Thrown>)
      requires Valid()
      ensures r.Failure? ==> r.error == IllegalArgument
      ensures IsEmpty() ==> r == Success({})
      ensures r.Success? ==> forall a :: a in r.value ==> a.IsClosed() && a in zonePartitions.forests.areas
      ensures r.Success? && !IsEmpty() ==> forall f :: f in LastPlacedTile().value.ForestZones() && ForestArea(f).Success? && ForestArea(f).value.IsClosed() ==> ForestArea(f).value in r.value
      ensures r.Success? && !IsEmpty() ==>
        forall a :: a in r.value <==> a.IsClosed() && exists f :: f in LastPlacedTile().value.ForestZones() && ForestArea(f) == Success(a)
    {
      if IsEmpty() then Success({})
      else ClosedAreasOf(zonePartitions.forests, ForestsAsZones(LastPlacedTile().value.ForestZones()))
    }

    /** riversClosedByLastTile: the closed river areas of the last tile's river zones. */
    function RiversClosedByLastTile(): (r: Result<set<Area>, Thrown>)
      requires Valid()
      ensures r.Failure? ==> r.error == IllegalArgument
      ensures IsEmpty() ==> r == Success({})
      ensures r.Success? ==> forall a :: a in r.value ==> a.IsClosed() && a in zonePartitions.rivers.areas
      ensures r.Success? && !IsEmpty() ==> forall v :: v in LastPlacedTile().value.RiverZones() && RiverArea(v).Success? && RiverArea(v).value.IsClosed() ==> RiverArea(v).value in r.value
      ensures r.Success? && !IsEmpty() ==>
        forall a :: a in r.value <==> a.IsClosed() && exists v :: v in LastPlacedTile().value.RiverZones() && RiverArea(v) == Success(a)
    {
      if IsEmpty() then Success({})
      else ClosedAreasOf(zonePartitions.rivers, RiversAsZones(LastPlacedTile().value.RiverZones()))
    }

    /** The side of the tile facing `direction` matches the facing side of any neighbour. */
    predicate FitsNeighbor(tile: PlacedTile, direction: Direction)
      requires Valid()
    {
      var neighbor := TileAt(tile.pos.Neighbor(direction));
      neighbor.None? || tile.Side(direction).IsSameKindAs(neighbor.value.Side(direction.Opposite()))
    }

    /** canAddTile: the position is an insertion position and every side fits its neighbour. */
    predicate CanAddTile(tile: PlacedTile)
      requires Valid()
    {
      tile.pos in InsertionPositions() && forall d :: d in AllDirections ==> FitsNeighbor(tile, d)
    }

    /** couldPlaceTile: some insertion position and rotation accepts the tile, without placer. */
    predicate CouldPlaceTile(tile: Tile)
      requires Valid()
    {
      exists pos, rotation :: pos in InsertionPositions() && rotation in AllRotations
        && CanAddTile(PlacedTile(tile, None, rotation, pos, None))
    }

    /**
     * The partitions after connecting, direction by direction, each side of a new tile to
     * the facing side of the neighbour already on this board.
     */
    function ConnectNeighbors(partitions: ZonePartitions, tile: PlacedTile, directions: seq<Direction>): (r: Result<ZonePartitions, Thrown>)
      requires Valid()
      ensures directions == [] ==> r == Success(partitions)
      ensures r.Failure? ==> r.error == IllegalArgument
      decreases |directions|
    {
      if directions == [] then Success(partitions)
      else
        var next :- ConnectNeighbor(partitions, tile, directions[0]);
        ConnectNeighbors(next, tile, directions[1..])
    }

    /** One step of the connection: nothing to do without a neighbour. */
    function ConnectNeighbor(partitions: ZonePartitions, tile: PlacedTile, direction: Direction): (r: Result<ZonePartitions, Thrown>)
      requires Valid()
      ensures TileAt(tile.pos.Neighbor(direction)).None? ==> r == Success(partitions)
      ensures !FitsNeighbor(tile, direction) ==> r.Failure?
      ensures r.Failure? ==> r.error == IllegalArgument
    {
      var neighbor := TileAt(tile.pos.Neighbor(direction));
      if neighbor.None? then Success(partitions)
      else
        SameKindIsEquivalence(neighbor.value.Side(direction.Opposite()), tile.Side(direction), tile.Side(direction));
        partitions.ConnectSides(neighbor.value.Side(direction.Opposite()), tile.Side(direction))
    }

    /**
     * withNewTile: refused unless the board is empty or the tile can be added; the tile goes
     * into its cell, its index after the others, and its zones into the partitions, joined
     * with the sides of its neighbours.
     */
    function WithNewTile(tile: PlacedTile): (r: Result<Board, Thrown>)
      requires Valid()
      ensures !(IsEmpty() || CanAddTile(tile)) ==> r == Failure(IllegalArgument)
      ensures r.Success? ==> r.value.Valid()
      ensures r.Success? ==> r.value.PlacedInOrder() == PlacedInOrder() + [tile]
      ensures r.Success? ==> r.value.LastPlacedTile() == Some(tile)
      ensures r.Success? ==> r.value.cancelledAnimals == cancelledAnimals
      ensures r.Success? ==> forall i :: 0 <= i < CellCount && i != IndexOf(tile.pos) ==> r.value.placedTiles[i] == placedTiles[i]
      ensures r.Success? ==>
        && zonePartitions.AddTile(tile.tile).Success?
        && ConnectNeighbors(zonePartitions.AddTile(tile.tile).value, tile, AllDirections) == Success(r.value.zonePartitions)
      ensures r.Failure? ==> (r.error == IndexOutOfBounds <==> (IsEmpty() || CanAddTile(tile)) && !IsIndexInRange(IndexOf(tile.pos)))
      ensures r.Failure? ==> r.error != NullPointer
    {
      if !(IsEmpty() || CanAddTile(tile)) then Failure(IllegalArgument)
      else if !IsIndexInRange(IndexOf(tile.pos)) then Failure(IndexOutOfBounds)
      else
        NewTileCellIsFree(this, tile);
        WithTileInFreeCell(tile)
    }

    /** The rest of withNewTile, once the tile's cell is known to be free: the zones join the partitions. */
    function WithTileInFreeCell(tile: PlacedTile): (r: Result<Board, Thrown>)
      requires Valid() && IsIndexInRange(IndexOf(tile.pos)) && placedTiles[IndexOf(tile.pos)].None?
      ensures r.Success? ==> r.value.Valid()
      ensures r.Success? ==> r.value.PlacedInOrder() == PlacedInOrder() + [tile]
      ensures r.Success? ==> r.value.LastPlacedTile() == Some(tile)
      ensures r.Success? ==> r.value.cancelledAnimals == cancelledAnimals
      ensures r.Success? ==> forall i :: 0 <= i < CellCount && i != IndexOf(tile.pos) ==> r.value.placedTiles[i] == placedTiles[i]
      ensures r.Success? ==>
        && zonePartitions.AddTile(tile.tile).Success?
        && ConnectNeighbors(zonePartitions.AddTile(tile.tile).value, tile, AllDirections) == Success(r.value.zonePartitions)
      ensures r.Failure? ==> r.error == IllegalArgument
    {
      var index := IndexOf(tile.pos);
      var added :- zonePartitions.AddTile(tile.tile);
      var connected :- ConnectNeighbors(added, tile, AllDirections);
      AppendTileKeepsValid(this, index, tile, connected);
      Success(Board(placedTiles[index := Some(tile)], orderedTileIndexes + [index], connected, cancelledAnimals))
    }

    /**
     * The partitions after addInitialOccupant with the tile's placer. A tile without placer
     * passes the same checks (they do not depend on the colour) and then fails where the
     * area's list of occupants is built from a null colour.
     */
    function InitialOccupantPartitions(placer: Option<PlayerColor>, kind: OccupantKind, zone: Zone): (r: Result<ZonePartitions, Thrown>)
      ensures placer.Some? ==> r == zonePartitions.AddInitialOccupant(placer.value, kind, zone)
      ensures placer.None? ==> r.Failure?
    {
      match placer
      case Some(color) => zonePartitions.AddInitialOccupant(color, kind, zone)
      case None =>
        var _ :- zonePartitions.AddInitialOccupant(Red, kind, zone);
        Failure(NullPointer)
    }

    /**
     * withOccupant: the tile named by the occupant's zone receives it, refused when that tile
     * is missing or already occupied; the occupant's area gets the placer as occupant.
     */
    function WithOccupant(occupant: Occupant): (r: Result<Board, Thrown>)
      requires Valid()
      ensures TileWithId(TileIdOf(occupant.zoneId)).Failure? ==> r == Failure(IllegalArgument)
      ensures TileWithId(TileIdOf(occupant.zoneId)).Success? && TileWithId(TileIdOf(occupant.zoneId)).value.occupant.Some? ==> r == Failure(IllegalArgument)
      ensures r.Success? ==> r.value.Valid()
      ensures r.Success? ==> r.value.orderedTileIndexes == orderedTileIndexes && r.value.cancelledAnimals == cancelledAnimals
      ensures r.Success? ==> r.value.Occupants() == Occupants() + {occupant}
      ensures r.Success? ==> (TileWithId(TileIdOf(occupant.zoneId)).Success? &&
        r.value.TileWithId(TileIdOf(occupant.zoneId)) == Success(TileWithId(TileIdOf(occupant.zoneId)).value.(occupant := Some(occupant))))
      ensures r.Success? ==>
        && TileWithId(TileIdOf(occupant.zoneId)).Success?
        && forall i :: 0 <= i < CellCount && i != IndexOf(TileWithId(TileIdOf(occupant.zoneId)).value.pos) ==>
             r.value.placedTiles[i] == placedTiles[i]
      ensures r.Success? ==>
        && TileWithId(TileIdOf(occupant.zoneId)).Success?
        && var tile := TileWithId(TileIdOf(occupant.zoneId)).value;
           && tile.placer.Some? && tile.ZoneWithId(occupant.zoneId).Success?
           && zonePartitions.AddInitialOccupant(tile.placer.value, occupant.kind, tile.ZoneWithId(occupant.zoneId).value)
              == Success(r.value.zonePartitions)
    {
      var k :- IndexWithId(PlacedInOrder(), TileIdOf(occupant.zoneId));
      var tile := PlacedInOrder()[k];
      var occupiedTile :- tile.WithOccupant(occupant);
      var zone :- tile.ZoneWithId(occupant.zoneId);
      var partitions :- InitialOccupantPartitions(tile.placer, occupant.kind, zone);
      var after := WithTileReplaced(k, occupiedTile, partitions);
      OccupantsReplace(PlacedInOrder(), k, occupiedTile);
      IndexWithIdReplace(PlacedInOrder(), k, occupiedTile, TileIdOf(occupant.zoneId));
      Success(after)
    }

    /**
     * withoutOccupant: the tile named by the occupant's zone loses its occupant and the
     * placer's pawn leaves the zone's area. A tile without placer is refused, as removePawn
     * finds no occupant of a null colour.
     */
    function WithoutOccupant(occupant: Occupant): (r: Result<Board, Thrown>)
      requires Valid()
      ensures TileWithId(TileIdOf(occupant.zoneId)).Failure? ==> r == Failure(IllegalArgument)
      ensures r.Success? ==> r.value.Valid()
      ensures r.Success? ==> r.value.orderedTileIndexes == orderedTileIndexes && r.value.cancelledAnimals == cancelledAnimals
      ensures r.Success? ==> r.value.Occupants() <= Occupants()
      ensures r.Success? ==> (TileWithId(TileIdOf(occupant.zoneId)).Success? &&
        r.value.TileWithId(TileIdOf(occupant.zoneId)) == Success(TileWithId(TileIdOf(occupant.zoneId)).value.WithNoOccupant()))
      ensures r.Success? ==>
        && TileWithId(TileIdOf(occupant.zoneId)).Success?
        && forall i :: 0 <= i < CellCount && i != IndexOf(TileWithId(TileIdOf(occupant.zoneId)).value.pos) ==>
             r.value.placedTiles[i] == placedTiles[i]
      ensures r.Success? ==>
        && TileWithId(TileIdOf(occupant.zoneId)).Success?
        && var tile := TileWithId(TileIdOf(occupant.zoneId)).value;
           && (tile.occupant.None? ==> r.value.Occupants() == Occupants())
           && (tile.occupant.Some? ==> Occupants() - {tile.occupant.value} <= r.value.Occupants())
           && (tile.occupant.Some? && (forall t :: t in PlacedInOrder() && t.occupant == tile.occupant ==> t == tile) ==>
                 r.value.Occupants() == Occupants() - {tile.occupant.value})
      ensures r.Success? ==>
        && TileWithId(TileIdOf(occupant.zoneId)).Success?
        && var tile := TileWithId(TileIdOf(occupant.zoneId)).value;
           && tile.placer.Some? && tile.ZoneWithId(occupant.zoneId).Success?
           && zonePartitions.RemovePawn(tile.placer.value, tile.ZoneWithId(occupant.zoneId).value) == Success(r.value.zonePartitions)
      ensures r.Failure? ==> r.error == IllegalArgument
    {
      var k :- IndexWithId(PlacedInOrder(), TileIdOf(occupant.zoneId));
      var tile := PlacedInOrder()[k];
      var clearedTile := tile.WithNoOccupant();
      var index := IndexOf(tile.pos);
      var zone :- tile.ZoneWithId(occupant.zoneId);
      var _ :- CheckArgument(tile.placer.Some?);
      var partitions :- zonePartitions.RemovePawn(tile.placer.value, zone);
      var after := WithTileReplaced(k, clearedTile, partitions);
      ClearedTileFound(this, k, after, TileIdOf(occupant.zoneId));
      ClearedOccupants(this, k, after);
      Success(after)
    }

    /** The board with the k-th placed tile replaced by one at the same position, and the given partitions. */
    function WithTileReplaced(k: nat, newTile: PlacedTile, partitions: ZonePartitions): (r: Board)
      requires Valid() && k < |orderedTileIndexes| && newTile.pos == PlacedInOrder()[k].pos
      ensures r.Valid() && r.PlacedInOrder() == PlacedInOrder()[k := newTile]
      ensures forall i :: 0 <= i < CellCount && i != IndexOf(newTile.pos) ==> r.placedTiles[i] == placedTiles[i]
      ensures r.orderedTileIndexes == orderedTileIndexes && r.cancelledAnimals == cancelledAnimals
      ensures r.zonePartitions == partitions
    {
      ReplaceTileKeepsValid(this, k, newTile, partitions);
      Board(placedTiles[IndexOf(newTile.pos) := Some(newTile)], orderedTileIndexes, partitions, cancelledAnimals)
    }

    /** Whether the tile holds a pawn whose forest or river area is one of those given. */
    function PawnIsIn(tile: PlacedTile, forests: seq<Area>, rivers: seq<Area>): (r: Result<bool, Thrown>)
      ensures r.Success? && r.value ==> tile.occupant.Some? && tile.occupant.value.kind == Pawn
      ensures r.Failure? ==> r.error == IllegalArgument
    {
      if tile.occupant.Some? && tile.occupant.value.kind == Pawn then
        var zone :- tile.ZoneWithId(tile.occupant.value.zoneId);
        match zone
        case ForestZone(forest) =>
          var area :- ForestArea(forest);
          Success(area in forests)
        case RiverZone(river) =>
          var area :- RiverArea(river);
          Success(area in rivers)
        case _ => Success(false)
      else Success(false)
    }

    /** The tile without its pawn when that pawn stands in one of the given areas, else the tile itself. */
    function ClearedTile(tile: PlacedTile, forests: seq<Area>, rivers: seq<Area>): (r: PlacedTile)
      requires PawnIsIn(tile, forests, rivers).Success?
      ensures r.pos == tile.pos && r.tile == tile.tile && r.placer == tile.placer
      ensures r == tile || r.occupant.None?
    {
      if PawnIsIn(tile, forests, rivers).value then tile.WithNoOccupant() else tile
    }

    /**
     * The cells once the tiles from position j of the placement order on have lost their
     * pawn when it stands in one of the given forests or rivers.
     */
    function ClearedCells(cells: seq<Option<PlacedTile>>, j: nat, forests: seq<Area>, rivers: seq<Area>): (r: Result<seq<Option<PlacedTile>>, Thrown>)
      requires Valid() && j <= |orderedTileIndexes| && |cells| == CellCount
      ensures r.Success? ==> |r.value| == CellCount
      ensures r.Failure? ==> r.error == IllegalArgument
      decreases |orderedTileIndexes| - j
    {
      if j == |orderedTileIndexes| then Success(cells)
      else
        var next :- ClearedCell(cells, orderedTileIndexes[j], forests, rivers);
        ClearedCells(next, j + 1, forests, rivers)
    }

    /** One pass of that loop: the cell of the tile at `index` loses its pawn when it stands in one of the areas. */
    function ClearedCell(cells: seq<Option<PlacedTile>>, index: int, forests: seq<Area>, rivers: seq<Area>): (r: Result<seq<Option<PlacedTile>>, Thrown>)
      requires Valid() && index in orderedTileIndexes && |cells| == CellCount
      ensures var tile := placedTiles[index].value;
        r.Success? <==> PawnIsIn(tile, forests, rivers).Success?
      ensures r.Success? ==> |r.value| == CellCount
      ensures r.Success? ==> forall i :: 0 <= i < CellCount && i != index ==> r.value[i] == cells[i]
      ensures r.Success? ==> r.value[index] == (if PawnIsIn(placedTiles[index].value, forests, rivers).value
        then Some(placedTiles[index].value.WithNoOccupant()) else cells[index])
      ensures r.Failure? ==> r.error == IllegalArgument
    {
      var tile := placedTiles[index].value;
      var clear :- PawnIsIn(tile, forests, rivers);
      Success(if clear then cells[index := Some(tile.WithNoOccupant())] else cells)
    }

    /**
     * withoutGatherersOrFishersIn: every pawn standing in one of the given forests or rivers
     * is taken off its tile, then the given rivers lose their fishers and the given forests
     * their gatherers. The two sets are given in the order they are iterated.
     */
    function WithoutGatherersOrFishersIn(forests: seq<Area>, rivers: seq<Area>): (r: Result<Board, Thrown>)
      requires Valid()
      ensures r.Success? ==> r.value.Valid()
      ensures r.Success? ==> r.value.orderedTileIndexes == orderedTileIndexes && r.value.cancelledAnimals == cancelledAnimals
      ensures r.Success? ==> forall k :: 0 <= k < |orderedTileIndexes| ==>
        PawnIsIn(PlacedInOrder()[k], forests, rivers).Success? &&
        r.value.PlacedInOrder()[k] == ClearedTile(PlacedInOrder()[k], forests, rivers)
      ensures r.Success? ==> r.value.Occupants() <= Occupants()
      ensures r.Success? ==> r.value.zonePartitions.meadows == zonePartitions.meadows && r.value.zonePartitions.riverSystems == zonePartitions.riverSystems
      ensures r.Success? ==>
        && ClearFishersOf(zonePartitions, rivers).Success?
        && ClearGatherersOf(ClearFishersOf(zonePartitions, rivers).value, forests) == Success(r.value.zonePartitions)
      ensures r.Failure? ==> r.error == IllegalArgument
    {
      var cells :- ClearedCells(placedTiles, 0, forests, rivers);
      var withoutFishers :- ClearFishersOf(zonePartitions, rivers);
      var withoutGatherers :- ClearGatherersOf(withoutFishers, forests);
      var b := this.(placedTiles := cells, zonePartitions := withoutGatherers);
      ClearedBoardIsValid(this, cells, b, forests, rivers);
      ClearedBoardLosesOccupants(this, b, forests, rivers);
      Success(b)
    }

    /** placedTiles.clone(): the cells in a fresh array. */
    method CloneCells() returns (cells: array<Option<PlacedTile>>)
      requires Valid()
      ensures fresh(cells) && cells[..] == placedTiles
    {
      cells := new Option<PlacedTile>[CellCount](i requires 0 <= i < CellCount => placedTiles[i]);
    }

    /**
     * The imperative withNewTile: a copy of the cells, the index appended, and a
     * partitions builder that adds the tile and connects it to each neighbour in turn.
     */
    method BuildWithNewTile(tile: PlacedTile) returns (r: Result<Board, Thrown>)
      requires Valid()
      ensures r == WithNewTile(tile)
    {
      if !(IsEmpty() || CanAddTile(tile)) {
        return Failure(IllegalArgument);
      }
      var index := IndexOf(tile.pos);
      if !IsIndexInRange(index) {
        return Failure(IndexOutOfBounds);
      }
      var newPlacedTiles := CloneCells();
      newPlacedTiles[index] := Some(tile);
      var newOrderedTileIndexes := orderedTileIndexes + [index];
      var builder := new Partitions.Builder(zonePartitions);
      var added := builder.AddTile(tile.tile);
      if added.Failure? {
        return Failure(added.error);
      }
      var connected := ConnectAllNeighbors(builder, tile);
      if connected.Failure? {
        return Failure(connected.error);
      }
      var partitions := builder.Build();
      return Success(Board(newPlacedTiles[..], newOrderedTileIndexes, partitions, cancelledAnimals));
    }

    /** The loop over Direction.ALL of withNewTile. */
    method ConnectAllNeighbors(builder: Partitions.Builder, tile: PlacedTile) returns (r: Result<(), Thrown>)
      requires Valid() && builder.Valid()
      modifies builder.forests, builder.meadows, builder.rivers, builder.riverSystems
      ensures r.Success? <==> ConnectNeighbors(old(builder.Value()), tile, AllDirections).Success?
      ensures r.Success? ==> builder.Value() == ConnectNeighbors(old(builder.Value()), tile, AllDirections).value
      ensures r.Failure? ==> r.error == IllegalArgument
    {
      ghost var start := builder.Value();
      for j := 0 to |AllDirections|
        invariant ConnectNeighbors(start, tile, AllDirections) == ConnectNeighbors(builder.Value(), tile, AllDirections[j..])
      {
        var direction := AllDirections[j];
        assert AllDirections[j..][0] == direction && AllDirections[j..][1..] == AllDirections[j + 1..];
        var neighbor := TileAt(tile.pos.Neighbor(direction));
        if neighbor.Some? {
          var sideOfNeighbor := neighbor.value.Side(direction.Opposite());
          var sideOfTile := tile.Side(direction);
          var joined := builder.ConnectSides(sideOfNeighbor, sideOfTile);
          if joined.Failure? {
            return joined;
          }
        }
      }
      return Success(());
    }

    /**
     * The imperative withOccupant: a copy of the cells with the occupied tile, and
     * a partitions builder that receives the initial occupant.
     */
    method BuildWithOccupant(occupant: Occupant) returns (r: Result<Board, Thrown>)
      requires Valid()
      ensures r == WithOccupant(occupant)
    {
      var tileId := TileIdOf(occupant.zoneId);
      var k :- IndexWithId(PlacedInOrder(), tileId);
      var tile := PlacedInOrder()[k];
      var occupiedTile :- tile.WithOccupant(occupant);
      var newPlacedTiles := CloneCells();
      var index := IndexOf(tile.pos);
      assert index == orderedTileIndexes[k];
      newPlacedTiles[index] := Some(occupiedTile);
      var zone :- tile.ZoneWithId(occupant.zoneId);
      var builder := new Partitions.Builder(zonePartitions);
      match tile.placer {
        case None =>
          var checked := builder.AddInitialOccupant(Red, occupant.kind, zone);
          if checked.Failure? {
            return Failure(checked.error);
          }
          return Failure(NullPointer);
        case Some(color) =>
          var placed := builder.AddInitialOccupant(color, occupant.kind, zone);
          if placed.Failure? {
            return Failure(placed.error);
          }
      }
      var partitions := builder.Build();
      return Success(Board(newPlacedTiles[..], orderedTileIndexes, partitions, cancelledAnimals));
    }

    /**
     * The imperative withoutOccupant: a copy of the cells with the cleared tile,
     * and a partitions builder from which the placer's pawn is removed.
     */
    method BuildWithoutOccupant(occupant: Occupant) returns (r: Result<Board, Thrown>)
      requires Valid()
      ensures r == WithoutOccupant(occupant)
    {
      var tileId := TileIdOf(occupant.zoneId);
      var k :- IndexWithId(PlacedInOrder(), tileId);
      var tile := PlacedInOrder()[k];
      var clearedTile := tile.WithNoOccupant();
      var newPlacedTiles := CloneCells();
      var index := IndexOf(tile.pos);
      assert index == orderedTileIndexes[k];
      newPlacedTiles[index] := Some(clearedTile);
      var zone :- tile.ZoneWithId(occupant.zoneId);
      var builder := new Partitions.Builder(zonePartitions);
      if tile.placer.None? {
        return Failure(IllegalArgument);
      }
      var removed := builder.RemovePawn(tile.placer.value, zone);
      if removed.Failure? {
        return Failure(removed.error);
      }
      var partitions := builder.Build();
      return Success(Board(newPlacedTiles[..], orderedTileIndexes, partitions, cancelledAnimals));
    }

    /**
     * The imperative withoutGatherersOrFishersIn: a copy of the cells in which
     * the pawns are removed tile by tile, then a builder that clears the rivers and forests.
     */
    method BuildWithoutGatherersOrFishersIn(forests: seq<Area>, rivers: seq<Area>) returns (r: Result<Board, Thrown>)
      requires Valid()
      ensures r == WithoutGatherersOrFishersIn(forests, rivers)
    {
      var builder := new Partitions.Builder(zonePartitions);
      var cells := ClearPawns(forests, rivers);
      if cells.Failure? {
        return Failure(cells.error);
      }
      var fishers := ClearAllFishers(builder, rivers);
      if fishers.Failure? {
        return Failure(fishers.error);
      }
      var gatherers := ClearAllGatherers(builder, forests);
      if gatherers.Failure? {
        return Failure(gatherers.error);
      }
      var partitions := builder.Build();
      return Success(this.(placedTiles := cells.value, zonePartitions := partitions));
    }

    /** The loop over the ordered indexes of withoutGatherersOrFishersIn. */
    method ClearPawns(forests: seq<Area>, rivers: seq<Area>) returns (r: Result<seq<Option<PlacedTile>>, Thrown>)
      requires Valid()
      ensures r == ClearedCells(placedTiles, 0, forests, rivers)
    {
      var newPlacedTiles := CloneCells();
      for j := 0 to |orderedTileIndexes|
        invariant ClearedCells(placedTiles, 0, forests, rivers) == ClearedCells(newPlacedTiles[..], j, forests, rivers)
      {
        var index := orderedTileIndexes[j];
        var placedTile := placedTiles[index].value;
        var clear := ClearPawn(placedTile, forests, rivers);
        if clear.Failure? {
          return Failure(clear.error);
        }
        if clear.value {
          newPlacedTiles[index] := Some(placedTile.WithNoOccupant());
        }
      }
      return Success(newPlacedTiles[..]);
    }

    /** The body of that loop: whether the tile's pawn stands in a given forest or river. */
    method ClearPawn(placedTile: PlacedTile, forests: seq<Area>, rivers: seq<Area>) returns (r: Result<bool, Thrown>)
      ensures r == PawnIsIn(placedTile, forests, rivers)
    {
      if placedTile.occupant.Some? && placedTile.occupant.value.kind == Pawn {
        var occupant := placedTile.occupant.value;
        var occupiedZone :- placedTile.ZoneWithId(occupant.zoneId);
        match occupiedZone {
          case ForestZone(forest) =>
            var area :- ForestArea(forest);
            return Success(area in forests);
          case RiverZone(river) =>
            var area :- RiverArea(river);
            return Success(area in rivers);
          case _ =>
        }
      }
      return Success(false);
    }

    /** withMoreCancelledAnimals: the cancelled animals grow; nothing else changes. */
    function WithMoreCancelledAnimals(newlyCancelledAnimals: set<Animal>): (r: Board)
      ensures r.cancelledAnimals == cancelledAnimals + newlyCancelledAnimals
      ensures Valid() ==> r.Valid() && r.PlacedInOrder() == PlacedInOrder()
      ensures r.placedTiles == placedTiles && r.orderedTileIndexes == orderedTileIndexes
      ensures r.zonePartitions == zonePartitions
    {
      this.(cancelledAnimals := cancelledAnimals + newlyCancelledAnimals)
    }
  }

  /** The occupants of the given tiles. */
  function OccupantsOf(tiles: seq<PlacedTile>): (r: set<Occupant>)
    ensures forall o :: o in r <==> exists t :: t in tiles && t.occupant == Some(o)
  {
    set t | t in tiles && t.occupant.Some? :: t.occupant.value
  }

  /** clearFishers applied to each given river area in turn. */
  function ClearFishersOf(partitions: ZonePartitions, rivers: seq<Area>): (r: Result<ZonePartitions, Thrown>)
    ensures r.Success? ==> r.value.forests == partitions.forests && r.value.meadows == partitions.meadows
    ensures r.Success? ==> r.value.riverSystems == partitions.riverSystems
    ensures r.Failure? ==> r.error == IllegalArgument
    decreases |rivers|
  {
    if rivers == [] then Success(partitions)
    else
      var next :- partitions.ClearFishers(rivers[0]);
      ClearFishersOf(next, rivers[1..])
  }

  /** clearGatherers applied to each given forest area in turn. */
  function ClearGatherersOf(partitions: ZonePartitions, forests: seq<Area>): (r: Result<ZonePartitions, Thrown>)
    ensures r.Success? ==> r.value.rivers == partitions.rivers && r.value.meadows == partitions.meadows
    ensures r.Success? ==> r.value.riverSystems == partitions.riverSystems
    ensures r.Failure? ==> r.error == IllegalArgument
    decreases |forests|
  {
    if forests == [] then Success(partitions)
    else
      var next :- partitions.ClearGatherers(forests[0]);
      ClearGatherersOf(next, forests[1..])
  }

  /** The given areas without their occupants. */
  function WithoutOccupantsAll(areas: seq<Area>): set<Area> {
    set a | a in areas :: a.WithoutOccupants()
  }

  /** Taking out one area x and then others is taking them all out, when x's replacement is none of the others. */
  lemma ReplaceThenRemove<T>(e: set<T>, x: T, y: T, rest: set<T>, cleared: set<T>)
    requires y !in rest
    ensures (e - {x} + {y}) - rest + cleared == e - ({x} + rest) + ({y} + cleared)
  {
  }

  /** The head and the tail of distinct areas: the head is not in the tail, which has no duplicates either. */
  lemma HeadAndTail(areas: seq<Area>)
    requires areas != [] && NoDuplicates(areas)
    ensures areas[0] !in areas[1..] && NoDuplicates(areas[1..])
    ensures Elements(areas) == {areas[0]} + Elements(areas[1..])
    ensures WithoutOccupantsAll(areas) == {areas[0].WithoutOccupants()} + WithoutOccupantsAll(areas[1..])
  {
    var rest := areas[1..];
    forall j | 0 <= j < |rest| ensures rest[j] != areas[0] { assert rest[j] == areas[j + 1]; }
    forall i, j | 0 <= i < j < |rest| ensures rest[i] != rest[j] { assert rest[i] == areas[i + 1] && rest[j] == areas[j + 1]; }
    assert forall a :: a in areas <==> a == areas[0] || a in rest;
  }

  /** One step of clearing the fishers: the partitions are kept and the other areas to clear are still there. */
  lemma ClearFishersStep(p: ZonePartitions, area: Area, rest: seq<Area>)
    requires p.IsPartitions() && area in p.rivers.areas && area !in rest
    requires forall a :: a in rest ==> a in p.rivers.areas
    ensures p.ClearFishers(area).Success?
    ensures var next := p.ClearFishers(area).value;
      && next.IsPartitions() && next.Zones() == p.Zones()
      && (forall a :: a in rest ==> a in next.rivers.areas)
      && area.WithoutOccupants() !in rest
      && Elements(next.rivers.areas) == Elements(p.rivers.areas) - {area} + {area.WithoutOccupants()}
  {
    Partitions.ClearFishersKeepsPartitions(p, area, area.zones[0]);
    Partition.RemoveAllOccupantsOfKeepsOthers(p.rivers, area, rest);
  }

  /**
   * Clearing the fishers of distinct river areas of the partitions succeeds, keeps the four
   * partitions, and replaces exactly those areas by the same areas without occupants.
   */
  lemma {:induction false} ClearFishersOfClears(p: ZonePartitions, rivers: seq<Area>)
    requires p.IsPartitions() && NoDuplicates(rivers) && forall a :: a in rivers ==> a in p.rivers.areas
    ensures ClearFishersOf(p, rivers).Success?
    ensures var q := ClearFishersOf(p, rivers).value;
      && q.IsPartitions() && q.Zones() == p.Zones()
      && Elements(q.rivers.areas) == Elements(p.rivers.areas) - Elements(rivers) + WithoutOccupantsAll(rivers)
    decreases |rivers|
  {
    if rivers == [] {
      assert Elements(rivers) == {} && WithoutOccupantsAll(rivers) == {};
    } else {
      var area, rest := rivers[0], rivers[1..];
      HeadAndTail(rivers);
      ClearFishersStep(p, area, rest);
      var next := p.ClearFishers(area).value;
      ClearFishersOfClears(next, rest);
      ReplaceThenRemove(Elements(p.rivers.areas), area, area.WithoutOccupants(), Elements(rest), WithoutOccupantsAll(rest));
    }
  }

  /** One step of clearing the gatherers: the partitions are kept and the other areas to clear are still there. */
  lemma ClearGatherersStep(p: ZonePartitions, area: Area, rest: seq<Area>)
    requires p.IsPartitions() && area in p.forests.areas && area !in rest
    requires forall a :: a in rest ==> a in p.forests.areas
    ensures p.ClearGatherers(area).Success?
    ensures var next := p.ClearGatherers(area).value;
      && next.IsPartitions() && next.Zones() == p.Zones()
      && (forall a :: a in rest ==> a in next.forests.areas)
      && area.WithoutOccupants() !in rest
      && Elements(next.forests.areas) == Elements(p.forests.areas) - {area} + {area.WithoutOccupants()}
  {
    Partitions.ClearGatherersKeepsPartitions(p, area, area.zones[0]);
    Partition.RemoveAllOccupantsOfKeepsOthers(p.forests, area, rest);
  }

  /**
   * Clearing the gatherers of distinct forest areas of the partitions succeeds, keeps the four
   * partitions, and replaces exactly those areas by the same areas without occupants.
   */
  lemma {:induction false} ClearGatherersOfClears(p: ZonePartitions, forests: seq<Area>)
    requires p.IsPartitions() && NoDuplicates(forests) && forall a :: a in forests ==> a in p.forests.areas
    ensures ClearGatherersOf(p, forests).Success?
    ensures var q := ClearGatherersOf(p, forests).value;
      && q.IsPartitions() && q.Zones() == p.Zones()
      && Elements(q.forests.areas) == Elements(p.forests.areas) - Elements(forests) + WithoutOccupantsAll(forests)
    decreases |forests|
  {
    if forests == [] {
      assert Elements(forests) == {} && WithoutOccupantsAll(forests) == {};
    } else {
      var area, rest := forests[0], forests[1..];
      HeadAndTail(forests);
      ClearGatherersStep(p, area, rest);
      var next := p.ClearGatherers(area).value;
      ClearGatherersOfClears(next, rest);
      ReplaceThenRemove(Elements(p.forests.areas), area, area.WithoutOccupants(), Elements(rest), WithoutOccupantsAll(rest));
    }
  }

  /**
   * withoutGatherersOrFishersIn with distinct forest and river areas of the partitions: the
   * partitions are kept, and exactly the given forests and rivers lose their occupants.
   */
  lemma WithoutGatherersOrFishersInClears(b: Board, forests: seq<Area>, rivers: seq<Area>)
    requires b.Valid() && b.zonePartitions.IsPartitions()
    requires NoDuplicates(forests) && forall a :: a in forests ==> a in b.zonePartitions.forests.areas
    requires NoDuplicates(rivers) && forall a :: a in rivers ==> a in b.zonePartitions.rivers.areas
    requires b.WithoutGatherersOrFishersIn(forests, rivers).Success?
    ensures var q := b.WithoutGatherersOrFishersIn(forests, rivers).value.zonePartitions;
      && q.IsPartitions() && q.Zones() == b.zonePartitions.Zones()
      && Elements(q.forests.areas) == Elements(b.zonePartitions.forests.areas) - Elements(forests) + WithoutOccupantsAll(forests)
      && Elements(q.rivers.areas) == Elements(b.zonePartitions.rivers.areas) - Elements(rivers) + WithoutOccupantsAll(rivers)
  {
    ClearFishersOfClears(b.zonePartitions, rivers);
    var withoutFishers := ClearFishersOf(b.zonePartitions, rivers).value;
    ClearGatherersOfClears(withoutFishers, forests);
  }

  /** Connecting the sides of the neighbours keeps the four partitions and their zones. */
  lemma {:induction false} ConnectNeighborsKeepsPartitions(b: Board, partitions: ZonePartitions, tile: PlacedTile, directions: seq<Direction>)
    requires b.Valid() && partitions.IsPartitions() && b.ConnectNeighbors(partitions, tile, directions).Success?
    ensures b.ConnectNeighbors(partitions, tile, directions).value.IsPartitions()
    ensures b.ConnectNeighbors(partitions, tile, directions).value.Zones() == partitions.Zones()
    decreases |directions|
  {
    if directions != [] {
      var d := directions[0];
      var neighbor := b.TileAt(tile.pos.Neighbor(d));
      if neighbor.Some? {
        Partitions.ConnectSidesKeepsPartitions(partitions, neighbor.value.Side(d.Opposite()), tile.Side(d));
      }
      ConnectNeighborsKeepsPartitions(b, b.ConnectNeighbor(partitions, tile, d).value, tile, directions[1..]);
    }
  }

  /**
   * withNewTile on partitions that do not yet hold the tile's zones: the partitions are kept
   * and hold the tile's zones besides their own.
   */
  lemma WithNewTileKeepsPartitions(b: Board, tile: PlacedTile)
    requires b.Valid() && b.zonePartitions.IsPartitions()
    requires forall z :: z in tile.tile.Zones() ==> z !in b.zonePartitions.Zones()
    requires b.WithNewTile(tile).Success?
    ensures var q := b.WithNewTile(tile).value.zonePartitions;
      q.IsPartitions() && q.Zones() == b.zonePartitions.Zones() + Elements(tile.tile.Zones())
  {
    Partitions.AddTileKeepsPartitions(b.zonePartitions, tile.tile);
    ConnectNeighborsKeepsPartitions(b, b.zonePartitions.AddTile(tile.tile).value, tile, AllDirections);
  }

  /** withOccupant keeps the partitions and their zones, and the occupant's area has the placer alone as occupant. */
  lemma WithOccupantKeepsPartitions(b: Board, occupant: Occupant)
    requires b.Valid() && b.zonePartitions.IsPartitions() && b.WithOccupant(occupant).Success?
    ensures var q := b.WithOccupant(occupant).value.zonePartitions;
      && q.IsPartitions() && q.Zones() == b.zonePartitions.Zones()
      && var tile := b.TileWithId(TileIdOf(occupant.zoneId)).value;
         var zone := tile.ZoneWithId(occupant.zoneId).value;
         && q.PartitionOf(occupant.kind, zone).AreaContaining(zone).Success?
         && q.PartitionOf(occupant.kind, zone).AreaContaining(zone).value.occupants == [tile.placer.value]
  {
    var tile := b.TileWithId(TileIdOf(occupant.zoneId)).value;
    var zone := tile.ZoneWithId(occupant.zoneId).value;
    Partitions.AddInitialOccupantKeepsPartitions(b.zonePartitions, tile.placer.value, occupant.kind, zone);
  }

  /** withoutOccupant keeps the partitions and their zones. */
  lemma WithoutOccupantKeepsPartitions(b: Board, occupant: Occupant)
    requires b.Valid() && b.zonePartitions.IsPartitions() && b.WithoutOccupant(occupant).Success?
    ensures var q := b.WithoutOccupant(occupant).value.zonePartitions;
      q.IsPartitions() && q.Zones() == b.zonePartitions.Zones()
  {
    var tile := b.TileWithId(TileIdOf(occupant.zoneId)).value;
    var zone := tile.ZoneWithId(occupant.zoneId).value;
    Partitions.RemovePawnKeepsPartitions(b.zonePartitions, tile.placer.value, zone);
  }

  /** Connecting the neighbours fails when one of them has a facing side of another kind. */
  lemma {:induction false} ConnectNeighborsRefusesMisfit(b: Board, partitions: ZonePartitions, tile: PlacedTile, directions: seq<Direction>, d: Direction)
    requires b.Valid() && d in directions && !b.FitsNeighbor(tile, d)
    ensures b.ConnectNeighbors(partitions, tile, directions).Failure?
    decreases |directions|
  {
    var next := b.ConnectNeighbor(partitions, tile, directions[0]);
    if next.Success? {
      assert d != directions[0];
      assert d in directions[1..];
      ConnectNeighborsRefusesMisfit(b, next.value, tile, directions[1..], d);
    }
  }

  /** The cell of a tile that may be added is free, and so not among the ordered indexes. */
  lemma NewTileCellIsFree(b: Board, tile: PlacedTile)
    requires b.Valid() && (b.IsEmpty() || b.CanAddTile(tile)) && IsIndexInRange(IndexOf(tile.pos))
    ensures b.placedTiles[IndexOf(tile.pos)].None? && IndexOf(tile.pos) !in b.orderedTileIndexes
  {
    var index := IndexOf(tile.pos);
    if !b.IsEmpty() {
      assert b.TileAt(tile.pos).None?;
    }
    forall k | 0 <= k < |b.orderedTileIndexes|
      ensures b.orderedTileIndexes[k] != index
    {
      assert b.placedTiles[b.orderedTileIndexes[k]].Some?;
    }
  }

  /** Placing a tile in a free cell of its own position keeps the invariant and extends the placement order. */
  lemma AppendTileKeepsValid(b: Board, index: int, tile: PlacedTile, partitions: ZonePartitions)
    requires b.Valid() && IsIndexInRange(index) && b.placedTiles[index].None? && IndexOf(tile.pos) == index
    ensures index !in b.orderedTileIndexes
    ensures var after := Board(b.placedTiles[index := Some(tile)], b.orderedTileIndexes + [index], partitions, b.cancelledAnimals);
      && after.Valid() && after.PlacedInOrder() == b.PlacedInOrder() + [tile]
      && after.LastPlacedTile() == Some(tile)
  {
    var ordered := b.orderedTileIndexes;
    forall k | 0 <= k < |ordered|
      ensures ordered[k] != index
    {
      assert b.placedTiles[ordered[k]].Some?;
    }
    var after := Board(b.placedTiles[index := Some(tile)], ordered + [index], partitions, b.cancelledAnimals);
    assert after.Valid();
    assert after.PlacedInOrder() == b.PlacedInOrder() + [tile];
    assert after.LastPlacedTile() == Some(tile);
  }

  /** Putting, in the cell of the k-th placed tile, a tile at the same position keeps the invariant. */
  lemma ReplaceTileKeepsValid(b: Board, k: int, tile: PlacedTile, partitions: ZonePartitions)
    requires b.Valid() && 0 <= k < |b.orderedTileIndexes| && tile.pos == b.PlacedInOrder()[k].pos
    ensures IndexOf(tile.pos) == b.orderedTileIndexes[k]
    ensures var after := Board(b.placedTiles[IndexOf(tile.pos) := Some(tile)], b.orderedTileIndexes, partitions, b.cancelledAnimals);
      after.Valid() && after.PlacedInOrder() == b.PlacedInOrder()[k := tile]
  {
    var ordered := b.orderedTileIndexes;
    var index := ordered[k];
    assert IndexOf(tile.pos) == index;
    var after := Board(b.placedTiles[index := Some(tile)], ordered, partitions, b.cancelledAnimals);
    assert after.Valid();
    forall j | 0 <= j < |ordered|
      ensures after.PlacedInOrder()[j] == b.PlacedInOrder()[k := tile][j]
    {
      if j != k {
        assert ordered[j] != index;
      }
    }
  }

  /** A tile with an occupant replacing one without adds exactly that occupant. */
  lemma OccupantsReplace(tiles: seq<PlacedTile>, k: int, tile: PlacedTile)
    requires 0 <= k < |tiles| && tiles[k].occupant.None? && tile.occupant.Some?
    ensures OccupantsOf(tiles[k := tile]) == OccupantsOf(tiles) + {tile.occupant.value}
  {
    var after := tiles[k := tile];
    forall o | o in OccupantsOf(tiles)
      ensures o in OccupantsOf(after)
    {
      var t :| t in tiles && t.occupant == Some(o);
      var j :| 0 <= j < |tiles| && tiles[j] == t;
      assert after[j] == t;
    }
    forall o | o in OccupantsOf(after)
      ensures o in OccupantsOf(tiles) + {tile.occupant.value}
    {
      var t :| t in after && t.occupant == Some(o);
      var j :| 0 <= j < |after| && after[j] == t;
      if j != k {
        assert tiles[j] == t;
      }
    }
    assert after[k] == tile;
  }

  /** Tiles that are kept or lose their occupant bring no new occupant. */
  lemma OccupantsShrink(before: seq<PlacedTile>, after: seq<PlacedTile>)
    requires |before| == |after|
    requires forall k :: 0 <= k < |after| ==> after[k] == before[k] || after[k].occupant.None?
    ensures OccupantsOf(after) <= OccupantsOf(before)
  {
    forall o | o in OccupantsOf(after)
      ensures o in OccupantsOf(before)
    {
      var t :| t in after && t.occupant == Some(o);
      var j :| 0 <= j < |after| && after[j] == t;
      assert before[j] == t;
    }
  }

  /** The k-th placed tile losing its occupant: no occupant is gained, and the tile is still found by its identifier. */
  lemma ClearedTileFound(b: Board, k: nat, after: Board, id: int)
    requires b.Valid() && after.Valid() && IndexWithId(b.PlacedInOrder(), id) == Success(k)
    requires after.PlacedInOrder() == b.PlacedInOrder()[k := b.PlacedInOrder()[k].WithNoOccupant()]
    ensures after.Occupants() <= b.Occupants()
    ensures after.TileWithId(id) == Success(b.PlacedInOrder()[k].WithNoOccupant())
  {
    OccupantsShrink(b.PlacedInOrder(), after.PlacedInOrder());
    IndexWithIdReplace(b.PlacedInOrder(), k, b.PlacedInOrder()[k].WithNoOccupant(), id);
  }

  /**
   * The k-th placed tile losing its occupant: every other occupant stays, and its own leaves
   * unless another placed tile holds the same one.
   */
  lemma ClearedOccupants(b: Board, k: nat, after: Board)
    requires b.Valid() && after.Valid() && k < |b.orderedTileIndexes|
    requires after.PlacedInOrder() == b.PlacedInOrder()[k := b.PlacedInOrder()[k].WithNoOccupant()]
    ensures var tile := b.PlacedInOrder()[k];
      && (tile.occupant.None? ==> after.Occupants() == b.Occupants())
      && (tile.occupant.Some? ==> b.Occupants() - {tile.occupant.value} <= after.Occupants())
      && (tile.occupant.Some? && (forall t :: t in b.PlacedInOrder() && t.occupant == tile.occupant ==> t == tile) ==>
            after.Occupants() == b.Occupants() - {tile.occupant.value})
  {
    var before := b.PlacedInOrder();
    OccupantsShrink(before, after.PlacedInOrder());
    ClearedKeepsOthers(before, k);
    if before[k].occupant.None? {
      assert before[k].WithNoOccupant() == before[k];
      assert after.PlacedInOrder() == before;
    }
    forall j | 0 <= j < |before| && j != k
      ensures before[j] != before[k]
    {
      PlacedInOrderDistinct(b, j, k);
    }
    if before[k].occupant.Some? && (forall t :: t in before && t.occupant == before[k].occupant ==> t == before[k]) {
      ClearedLosesOwn(before, k);
    }
  }

  /** Clearing the k-th tile keeps every occupant other than its own. */
  lemma ClearedKeepsOthers(before: seq<PlacedTile>, k: nat)
    requires k < |before|
    ensures var after := before[k := before[k].WithNoOccupant()];
      forall o :: o in OccupantsOf(before) && Some(o) != before[k].occupant ==> o in OccupantsOf(after)
  {
    var after := before[k := before[k].WithNoOccupant()];
    forall o | o in OccupantsOf(before) && Some(o) != before[k].occupant
      ensures o in OccupantsOf(after)
    {
      var t :| t in before && t.occupant == Some(o);
      var j :| 0 <= j < |before| && before[j] == t;
      assert after[j] == t;
    }
  }

  /** Clearing the only tile holding an occupant removes that occupant. */
  lemma ClearedLosesOwn(before: seq<PlacedTile>, k: nat)
    requires k < |before| && before[k].occupant.Some?
    requires forall j :: 0 <= j < |before| && j != k ==> before[j] != before[k]
    requires forall t :: t in before && t.occupant == before[k].occupant ==> t == before[k]
    ensures before[k].occupant.value !in OccupantsOf(before[k := before[k].WithNoOccupant()])
  {
    var after := before[k := before[k].WithNoOccupant()];
    forall j | 0 <= j < |after|
      ensures after[j].occupant != before[k].occupant
    {
      if j != k {
        assert after[j] == before[j] && before[j] in before;
      }
    }
  }

  /** Two places of the placement order hold tiles at different positions. */
  lemma PlacedInOrderDistinct(b: Board, j: nat, k: nat)
    requires b.Valid() && j < |b.orderedTileIndexes| && k < |b.orderedTileIndexes| && j != k
    ensures b.PlacedInOrder()[j] != b.PlacedInOrder()[k]
  {
    assert IndexOf(b.PlacedInOrder()[j].pos) == b.orderedTileIndexes[j];
    assert IndexOf(b.PlacedInOrder()[k].pos) == b.orderedTileIndexes[k];
  }

  /** Replacing the first tile with an identifier by one with the same identifier keeps it first. */
  lemma IndexWithIdReplace(tiles: seq<PlacedTile>, k: int, tile: PlacedTile, id: int)
    requires IndexWithId(tiles, id) == Success(k) && tile.Id() == id
    ensures IndexWithId(tiles[k := tile], id) == Success(k)
  {
    var after := tiles[k := tile];
    assert after[k].Id() == id;
    forall j | 0 <= j < k
      ensures after[j].Id() != id
    {
      assert after[j] == tiles[j];
    }
    var found := IndexWithId(after, id);
    assert found.Success? && found.value <= k;
  }


  /**
   * One step of the frame: a cell that is neither the one just updated nor one of the
   * positions left to clear is the same after the step as before it.
   */
  lemma FrameStep(cells: seq<Option<PlacedTile>>, next: seq<Option<PlacedTile>>, after: seq<Option<PlacedTile>>, index: int, rest: seq<int>)
    requires |cells| == |next| == |after| == CellCount
    requires forall i :: 0 <= i < CellCount && i != index ==> next[i] == cells[i]
    requires forall i :: 0 <= i < CellCount && i !in rest ==> after[i] == next[i]
    ensures forall i :: 0 <= i < CellCount && i !in [index] + rest ==> after[i] == cells[i]
  {
    forall i | 0 <= i < CellCount && i !in [index] + rest
      ensures after[i] == cells[i]
    {
      assert i != index && i !in rest;
    }
  }

  /** ClearedCells from position j on leaves the cells of the earlier and of the empty positions alone. */
  lemma {:induction false} ClearedCellsFrame(b: Board, cells: seq<Option<PlacedTile>>, j: nat, forests: seq<Area>, rivers: seq<Area>)
    requires b.Valid() && j <= |b.orderedTileIndexes| && |cells| == CellCount
    requires b.ClearedCells(cells, j, forests, rivers).Success?
    ensures forall i :: 0 <= i < CellCount && i !in b.orderedTileIndexes[j..] ==> b.ClearedCells(cells, j, forests, rivers).value[i] == cells[i]
    decreases |b.orderedTileIndexes| - j
  {
    if j < |b.orderedTileIndexes| {
      var index := b.orderedTileIndexes[j];
      var next := b.ClearedCell(cells, index, forests, rivers).value;
      ClearedCellsFrame(b, next, j + 1, forests, rivers);
      var r := b.ClearedCells(next, j + 1, forests, rivers).value;
      assert b.ClearedCells(cells, j, forests, rivers).value == r;
      var rest := b.orderedTileIndexes[j + 1..];
      assert b.orderedTileIndexes[j..] == [index] + rest;
      FrameStep(cells, next, r, index, rest);
    }
  }

  /** The cell of the tile at position k of the placement order keeps its tile, or the tile without its pawn. */
  ghost predicate ClearedAt(b: Board, cells: seq<Option<PlacedTile>>, after: seq<Option<PlacedTile>>, k: nat,
    forests: seq<Area>, rivers: seq<Area>)
    requires b.Valid() && k < |b.orderedTileIndexes| && |cells| == CellCount && |after| == CellCount
  {
    var index := b.orderedTileIndexes[k];
    var tile := b.placedTiles[index].value;
    && b.PawnIsIn(tile, forests, rivers).Success?
    && after[index] == (if b.PawnIsIn(tile, forests, rivers).value then Some(tile.WithNoOccupant()) else cells[index])
  }

  /** ClearedCells from position j on keeps each later tile or takes its pawn off. */
  lemma {:induction false} ClearedCellsMeaning(b: Board, cells: seq<Option<PlacedTile>>, j: nat, forests: seq<Area>, rivers: seq<Area>)
    requires b.Valid() && j <= |b.orderedTileIndexes| && |cells| == CellCount
    requires b.ClearedCells(cells, j, forests, rivers).Success?
    ensures forall k :: j <= k < |b.orderedTileIndexes| ==>
      ClearedAt(b, cells, b.ClearedCells(cells, j, forests, rivers).value, k, forests, rivers)
    decreases |b.orderedTileIndexes| - j
  {
    if j < |b.orderedTileIndexes| {
      var index := b.orderedTileIndexes[j];
      var next := b.ClearedCell(cells, index, forests, rivers).value;
      ClearedCellsMeaning(b, next, j + 1, forests, rivers);
      ClearedCellsFrame(b, next, j + 1, forests, rivers);
      var r := b.ClearedCells(next, j + 1, forests, rivers).value;
      assert b.ClearedCells(cells, j, forests, rivers).value == r;
      forall k | j <= k < |b.orderedTileIndexes|
        ensures ClearedAt(b, cells, r, k, forests, rivers)
      {
        if k == j {
          assert index !in b.orderedTileIndexes[j + 1..] by {
            assert forall m :: j < m < |b.orderedTileIndexes| ==> b.orderedTileIndexes[m] != index;
          }
          assert r[index] == next[index];
        } else {
          assert ClearedAt(b, next, r, k, forests, rivers);
          assert b.orderedTileIndexes[k] != index;
          assert next[b.orderedTileIndexes[k]] == cells[b.orderedTileIndexes[k]];
        }
      }
    }
  }

  /** The cleared cells: the other cells as they were, each placed tile kept or without its pawn. */
  lemma ClearedCellsShape(b: Board, cells: seq<Option<PlacedTile>>, forests: seq<Area>, rivers: seq<Area>)
    requires b.Valid() && b.ClearedCells(b.placedTiles, 0, forests, rivers) == Success(cells)
    ensures |cells| == CellCount
    ensures forall i :: 0 <= i < CellCount && i !in b.orderedTileIndexes ==> cells[i] == b.placedTiles[i]
    ensures forall k :: 0 <= k < |b.orderedTileIndexes| ==>
      b.PawnIsIn(b.PlacedInOrder()[k], forests, rivers).Success? &&
      cells[b.orderedTileIndexes[k]] == Some(b.ClearedTile(b.PlacedInOrder()[k], forests, rivers))
  {
    ClearedCellsFrame(b, b.placedTiles, 0, forests, rivers);
    ClearedCellsMeaning(b, b.placedTiles, 0, forests, rivers);
    assert b.orderedTileIndexes[0..] == b.orderedTileIndexes;
    forall k | 0 <= k < |b.orderedTileIndexes|
      ensures b.PawnIsIn(b.PlacedInOrder()[k], forests, rivers).Success?
      ensures cells[b.orderedTileIndexes[k]] == Some(b.ClearedTile(b.PlacedInOrder()[k], forests, rivers))
    {
      assert ClearedAt(b, b.placedTiles, cells, k, forests, rivers);
      assert b.PlacedInOrder()[k] == b.placedTiles[b.orderedTileIndexes[k]].value;
    }
  }

  /** The board made of the cleared cells satisfies the invariant; its tiles are the cleared ones. */
  lemma ClearedBoardIsValid(b: Board, cells: seq<Option<PlacedTile>>, after: Board, forests: seq<Area>, rivers: seq<Area>)
    requires b.Valid() && b.ClearedCells(b.placedTiles, 0, forests, rivers) == Success(cells)
    requires after == b.(placedTiles := cells, zonePartitions := after.zonePartitions)
    ensures after.Valid()
    ensures forall k :: 0 <= k < |b.orderedTileIndexes| ==>
      b.PawnIsIn(b.PlacedInOrder()[k], forests, rivers).Success? &&
      after.PlacedInOrder()[k] == b.ClearedTile(b.PlacedInOrder()[k], forests, rivers)
  {
    ClearedCellsShape(b, cells, forests, rivers);
    var ordered := b.orderedTileIndexes;
    forall k | 0 <= k < |ordered|
      ensures b.PlacedInOrder()[k].pos == b.ClearedTile(b.PlacedInOrder()[k], forests, rivers).pos
    {
    }
    assert after.Valid();
  }

  /** Clearing pawns brings no new occupant. */
  lemma ClearedBoardLosesOccupants(b: Board, after: Board, forests: seq<Area>, rivers: seq<Area>)
    requires b.Valid() && after.Valid() && after.orderedTileIndexes == b.orderedTileIndexes
    requires forall k :: 0 <= k < |b.orderedTileIndexes| ==>
      b.PawnIsIn(b.PlacedInOrder()[k], forests, rivers).Success? &&
      after.PlacedInOrder()[k] == b.ClearedTile(b.PlacedInOrder()[k], forests, rivers)
    ensures after.Occupants() <= b.Occupants()
  {
    OccupantsShrink(b.PlacedInOrder(), after.PlacedInOrder());
  }

  /** A board built by successive placements keeps its tiles within it once the first one is. */
  lemma WithNewTileStaysOnBoard(b: Board, tile: PlacedTile)
    requires b.Valid() && b.AllOnBoard() && b.WithNewTile(tile).Success?
    requires b.IsEmpty() ==> IsPosInBoard(tile.pos)
    ensures b.WithNewTile(tile).value.AllOnBoard()
  {
    var after := b.WithNewTile(tile).value;
    forall i | 0 <= i < CellCount && after.placedTiles[i].Some?
      ensures IsPosInBoard(after.placedTiles[i].value.pos)
    {
      if i == IndexOf(tile.pos) {
        assert after.placedTiles[i] == Some(tile);
      }
    }
  }

  /** Replacing one tile changes the count by what the old tile contributed and what the new one does. */
  lemma {:induction false} CountOccupantsReplace(tiles: seq<PlacedTile>, k: int, tile: PlacedTile, player: PlayerColor, kind: OccupantKind)
    requires 0 <= k < |tiles|
    ensures CountOccupants(tiles[k := tile], player, kind) + (if IsOccupantOf(tiles[k], player, kind) then 1 else 0)
      == CountOccupants(tiles, player, kind) + (if IsOccupantOf(tile, player, kind) then 1 else 0)
    decreases |tiles|
  {
    var last := |tiles| - 1;
    var after := tiles[k := tile];
    if k == last {
      assert after[..last] == tiles[..last];
    } else {
      assert after[..last] == tiles[..last][k := tile];
      CountOccupantsReplace(tiles[..last], k, tile, player, kind);
    }
  }

  /**
   * withOccupant takes one occupant from the supply of the tile's placer: that player's count
   * of the occupant's kind grows by one and every other count stays as it was.
   */
  lemma WithOccupantCountsOneMore(b: Board, occupant: Occupant, player: PlayerColor, kind: OccupantKind)
    requires b.Valid() && b.WithOccupant(occupant).Success?
    ensures b.TileWithId(TileIdOf(occupant.zoneId)).Success?
    ensures var tile := b.TileWithId(TileIdOf(occupant.zoneId)).value;
      b.WithOccupant(occupant).value.OccupantCount(player, kind) ==
        b.OccupantCount(player, kind) + (if tile.placer == Some(player) && kind == occupant.kind then 1 else 0)
  {
    var tiles := b.PlacedInOrder();
    var k := IndexWithId(tiles, TileIdOf(occupant.zoneId)).value;
    var tile := tiles[k];
    var occupiedTile := tile.WithOccupant(occupant).value;
    var zone := tile.ZoneWithId(occupant.zoneId).value;
    var partitions := b.InitialOccupantPartitions(tile.placer, occupant.kind, zone).value;
    ReplaceTileKeepsValid(b, k, occupiedTile, partitions);
    assert b.WithOccupant(occupant).value == Board(b.placedTiles[IndexOf(tile.pos) := Some(occupiedTile)], b.orderedTileIndexes, partitions, b.cancelledAnimals);
    CountOccupantsReplace(tiles, k, occupiedTile, player, kind);
  }

  /**
   * withoutOccupant gives the occupant back: the count of the tile's placer for the kind of
   * occupant the tile held drops by one and every other count stays as it was.
   */
  lemma WithoutOccupantCountsOneLess(b: Board, occupant: Occupant, player: PlayerColor, kind: OccupantKind)
    requires b.Valid() && b.WithoutOccupant(occupant).Success?
    ensures b.TileWithId(TileIdOf(occupant.zoneId)).Success?
    ensures var tile := b.TileWithId(TileIdOf(occupant.zoneId)).value;
      b.WithoutOccupant(occupant).value.OccupantCount(player, kind) + (if IsOccupantOf(tile, player, kind) then 1 else 0) ==
        b.OccupantCount(player, kind)
  {
    var tiles := b.PlacedInOrder();
    var k := IndexWithId(tiles, TileIdOf(occupant.zoneId)).value;
    var tile := tiles[k];
    var clearedTile := tile.WithNoOccupant();
    var zone := tile.ZoneWithId(occupant.zoneId).value;
    var partitions := b.zonePartitions.RemovePawn(tile.placer.value, zone).value;
    ReplaceTileKeepsValid(b, k, clearedTile, partitions);
    assert b.WithoutOccupant(occupant).value == Board(b.placedTiles[IndexOf(tile.pos) := Some(clearedTile)], b.orderedTileIndexes, partitions, b.cancelledAnimals);
    CountOccupantsReplace(tiles, k, clearedTile, player, kind);
  }

  /** Cancelling animals is monotonic: a meadow never counts more animals afterwards. */
  lemma MoreCancelledAnimalsCountFewer(b: Board, more: set<Animal>, meadow: Area)
    ensures Animals(meadow, b.WithMoreCancelledAnimals(more).cancelledAnimals) == Animals(meadow, b.cancelledAnimals) - more
  {
    AnimalsCancel(meadow, b.cancelledAnimals, more);
  }

  /** A board that differs from another only by its cancelled animals is that board with the difference cancelled. */
  lemma CancelledDifference(after: Board, b: Board, more: set<Animal>)
    requires after == b.WithMoreCancelledAnimals(after.cancelledAnimals)
    requires after.cancelledAnimals == b.cancelledAnimals + more
    ensures after == b.WithMoreCancelledAnimals(more)
  {
  }

  /** Cancelling animals changes no tile lookup: the tile with an identifier is the same before and after. */
  lemma CancellingKeepsTileWithId(b: Board, more: set<Animal>, tileId: int)
    requires b.Valid()
    ensures b.WithMoreCancelledAnimals(more).TileWithId(tileId) == b.TileWithId(tileId)
  {
    var c := b.WithMoreCancelledAnimals(more);
    assert c.PlacedInOrder() == b.PlacedInOrder();
  }

  /** rivers.forEach(builder::clearFishers). */
  method ClearAllFishers(builder: Partitions.Builder, rivers: seq<Area>) returns (r: Result<(), Thrown>)
    requires builder.Valid()
    modifies builder.forests, builder.meadows, builder.rivers, builder.riverSystems
    ensures r.Success? <==> ClearFishersOf(old(builder.Value()), rivers).Success?
    ensures r.Success? ==> builder.Value() == ClearFishersOf(old(builder.Value()), rivers).value
    ensures r.Failure? ==> r.error == IllegalArgument
  {
    ghost var start := builder.Value();
    for j := 0 to |rivers|
      invariant ClearFishersOf(start, rivers) == ClearFishersOf(builder.Value(), rivers[j..])
    {
      assert rivers[j..][0] == rivers[j] && rivers[j..][1..] == rivers[j + 1..];
      var cleared := builder.ClearFishers(rivers[j]);
      if cleared.Failure? {
        return cleared;
      }
    }
    return Success(());
  }

  /** forests.forEach(builder::clearGatherers). */
  method ClearAllGatherers(builder: Partitions.Builder, forests: seq<Area>) returns (r: Result<(), Thrown>)
    requires builder.Valid()
    modifies builder.forests, builder.meadows, builder.rivers, builder.riverSystems
    ensures r.Success? <==> ClearGatherersOf(old(builder.Value()), forests).Success?
    ensures r.Success? ==> builder.Value() == ClearGatherersOf(old(builder.Value()), forests).value
    ensures r.Failure? ==> r.error == IllegalArgument
  {
    ghost var start := builder.Value();
    for j := 0 to |forests|
      invariant ClearGatherersOf(start, forests) == ClearGatherersOf(builder.Value(), forests[j..])
    {
      assert forests[j..][0] == forests[j] && forests[j..][1..] == forests[j + 1..];
      var cleared := builder.ClearGatherers(forests[j]);
      if cleared.Failure? {
        return cleared;
      }
    }
    return Success(());
  }

  /** Rotation.ALL. */
  const AllRotations: seq<Rotation> := [NoTurn, Right, HalfTurn, Left]

  /** The forest zones as zones. */
  function ForestsAsZones(forests: seq<Forest>): (r: seq<Zone>)
    ensures forall z :: z in r <==> z.ForestZone? && z.forest in forests
  {
    if forests == [] then []
    else
      assert forall f :: f in forests <==> f == forests[0] || f in forests[1..];
      [ForestZone(forests[0])] + ForestsAsZones(forests[1..])
  }

  /** The river zones as zones. */
  function RiversAsZones(rivers: seq<River>): (r: seq<Zone>)
    ensures forall z :: z in r <==> z.RiverZone? && z.river in rivers
  {
    if rivers == [] then []
    else
      assert forall v :: v in rivers <==> v == rivers[0] || v in rivers[1..];
      [RiverZone(rivers[0])] + RiversAsZones(rivers[1..])
  }

  /** Board.EMPTY: no tile, empty partitions, no cancelled animal. */
  /** n empty cells. */
  function NoTiles(n: nat): (cells: seq<Option<PlacedTile>>)
    ensures |cells| == n && forall i :: 0 <= i < n ==> cells[i].None?
  {
    if n == 0 then [] else NoTiles(n - 1) + [None]
  }

  const Empty: Board := Board(NoTiles(CellCount), [], Partitions.Empty, {})

  /** The empty board satisfies the invariant and offers no insertion position. */
  lemma EmptyIsValid()
    ensures Empty.Valid() && Empty.IsEmpty() && Empty.AllOnBoard()
    ensures Empty.InsertionPositions() == {}
    ensures Empty.Occupants() == {}
  {
  }

  /**
   * A position one step east of the board's east edge has the index of the position on the
   * west edge one row below, so tileAt returns the tile placed there.
   */
  lemma TileAtWraps(b: Board, y: int)
    requires b.Valid() && -Reach <= y < Reach
    ensures b.TileAt(Pos(Reach + 1, y)) == b.placedTiles[IndexOf(Pos(-Reach, y + 1))]
    ensures IsPosInBoard(Pos(-Reach, y + 1)) && !IsPosInBoard(Pos(Reach + 1, y))
  {
  }

  /** On a board whose tiles all lie within it, tileAt on a position of the board finds the tile there. */
  lemma TileAtOnBoard(b: Board, pos: Pos)
    requires b.Valid() && b.AllOnBoard() && IsPosInBoard(pos)
    ensures b.TileAt(pos).Some? ==> b.TileAt(pos).value.pos == pos
    ensures b.TileAt(pos).None? <==> b.placedTiles[IndexOf(pos)].None?
  {
    var i := IndexOf(pos);
    IndexOfOnBoard(pos, pos);
    if b.placedTiles[i].Some? {
      IndexOfOnBoard(pos, b.placedTiles[i].value.pos);
    }
  }
}
