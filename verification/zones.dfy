/**
 * Players' colours, animals and the zones of a tile. The Java sealed interface Zone and its
 * records become one datatype whose variants wrap a datatype per zone kind, so that tile
 * sides can name the kind they hold. Zone identifiers and fish counts come from the tile
 * catalogue and are non-negative.
 */
module Zones {
  import opened Wrappers

  /** The five colours in declaration order; the order decides how occupants are sorted. */
  datatype PlayerColor = Red | Blue | Green | Yellow | Purple {
    function Ordinal(): (i: nat)
      ensures i < 5
    {
      match this
      case Red => 0
      case Blue => 1
      case Green => 2
      case Yellow => 3
      case Purple => 4
    }
  }

  /** PlayerColor.ALL. */
  const AllColors: seq<PlayerColor> := [Red, Blue, Green, Yellow, Purple]

  /** ALL lists every colour once, by ordinal. */
  lemma AllColorsByOrdinal(c: PlayerColor)
    ensures |AllColors| == 5 && AllColors[c.Ordinal()] == c
    ensures forall i, j :: 0 <= i < j < 5 ==> AllColors[i] != AllColors[j]
  {
  }

  /**
   * Zone.tileId(zoneId): zoneId / 10 with Java's division, which truncates towards zero.
   * Dafny's / is Euclidean, which agrees with flooring here only because the divisor 10 is
   * positive; either way it differs from truncation on negative identifiers, handled separately.
   */
  function TileIdOf(zoneId: int): int {
    if zoneId >= 0 then zoneId / 10 else -((-zoneId) / 10)
  }

  /** Zone.localId(zoneId): zoneId % 10 with Java's remainder, which has the dividend's sign. */
  function LocalIdOf(zoneId: int): int {
    zoneId - 10 * TileIdOf(zoneId)
  }

  /** A zone identifier splits into its tile identifier and its local identifier. */
  lemma ZoneIdSplits(zoneId: int)
    ensures 10 * TileIdOf(zoneId) + LocalIdOf(zoneId) == zoneId
    ensures -10 < LocalIdOf(zoneId) < 10
    ensures zoneId >= 0 ==> 0 <= LocalIdOf(zoneId) && TileIdOf(zoneId) == zoneId / 10 && LocalIdOf(zoneId) == zoneId % 10
  {
  }

  /** Identifiers built from a tile identifier and a local identifier below 10 split back into them. */
  lemma ZoneIdRoundTrip(tileId: nat, localId: nat)
    requires localId < 10
    ensures TileIdOf(10 * tileId + localId) == tileId && LocalIdOf(10 * tileId + localId) == localId
  {
  }

  datatype AnimalKind = Mammoth | Aurochs | Deer | Tiger

  /** An animal; its identifier is its zone's identifier followed by one more digit. */
  datatype Animal = Animal(id: int, kind: AnimalKind) {
    /** The zone identifier: id / 10, truncated. */
    function ZoneId(): int {
      TileIdOf(id)
    }

    function TileId(): int {
      TileIdOf(ZoneId())
    }
  }

  datatype SpecialPower = Shaman | Logboat | HuntingTrap | PitTrap | WildFire | Raft

  datatype ForestKind = Plain | WithMenhir | WithMushrooms

  datatype Forest = Forest(id: nat, kind: ForestKind)

  datatype Meadow = Meadow(id: nat, animals: seq<Animal>, specialPower: Option<SpecialPower>)

  datatype Lake = Lake(id: nat, fishCount: nat, specialPower: Option<SpecialPower>)

  datatype River = River(id: nat, fishCount: nat, lake: Option<Lake>) {
    /** hasLake: the lake is not null. */
    predicate HasLake() {
      lake.Some?
    }
  }

  /** A zone of any kind; Water is the union of the lake and river variants. */
  datatype Zone =
    | ForestZone(forest: Forest)
    | MeadowZone(meadow: Meadow)
    | LakeZone(lake: Lake)
    | RiverZone(river: River)
  {
    function Id(): nat {
      match this
      case ForestZone(f) => f.id
      case MeadowZone(m) => m.id
      case LakeZone(l) => l.id
      case RiverZone(r) => r.id
    }

    function TileId(): int {
      TileIdOf(Id())
    }

    function LocalId(): int {
      LocalIdOf(Id())
    }

    /** The default method returns null; meadows and lakes return their own component. */
    function SpecialPower(): (p: Option<SpecialPower>)
      ensures (ForestZone? || RiverZone?) ==> p == None
      ensures MeadowZone? ==> p == meadow.specialPower
      ensures LakeZone? ==> p == lake.specialPower
    {
      match this
      case MeadowZone(m) => m.specialPower
      case LakeZone(l) => l.specialPower
      case _ => None
    }

    predicate IsWater() {
      LakeZone? || RiverZone?
    }

    /** Water.fishCount. */
    function FishCount(): nat
      requires IsWater()
    {
      if LakeZone? then lake.fishCount else river.fishCount
    }
  }

  /** A zone's local identifier is a digit, and its tile identifier is the rest of its identifier. */
  lemma ZoneIdsOfZone(z: Zone)
    ensures 0 <= z.LocalId() < 10 && z.TileId() >= 0
    ensures 10 * z.TileId() + z.LocalId() == z.Id()
  {
    ZoneIdSplits(z.Id());
  }
}
